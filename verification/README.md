# Paged memory, its CPU, and the services around them

The repository is a small distributed operating system: CPU, kernel, memory and filesystem are
processes that talk by messages. This project models its core, demand-paged virtual memory with
swap under a CPU that restarts faulting instructions, and proves that the core is invisible:
whatever the schedule, the interrupts, the page faults and the replacement policy, each process
runs as it would alone on a machine with one flat private memory. Beside it stand the kernel's
resource accounting (WAIT, SIGNAL and exit) and the byte formats of the messages.

## How it is laid out

Each state is described once, as a value, with every message handler a function on it; the lemmas
are about those functions. The code that updates state in place is then written as classes and
loops (`SwapArea`, `MemoryProcess`, `Processor`, `Buffers`, `KernelProcess`, `FileProcess`), each
method proved to do what the function of the same request says. What is proved of the functions
therefore holds of the methods.

Where two sides share a function (the CPU and the flat machine, an encoder and its decoder, a walk
and what is done at its end), `Instructions`, `WireFormat`, `MemoryDetail`, `FileChains`,
`CallEffects` and `Handover` say what it computes on registers, bytes, links and counters.

| files | subject |
|---|---|
| `Words` | 32-bit words, their bytes in memory, ranges and page-sized slices of byte arrays |
| `Paging`, `Access`, `MemoryDetail`, `FlatView`, `Crossing` | frames, page tables, page-fault service, CPU accesses, the flat memory of each process, accesses that cross a page |
| `SwapMap`, `Lifecycle`, `Accounting`, `PageCount` | swap blocks, process creation and teardown, conservation of frames and blocks |
| `History`, `Replacement` | whole runs of the memory process; LRU and FIFO in terms of the history of accesses |
| `Codec`, `WireFormat`, `Buffers` | message formats, where each byte of a message is, and the code that writes and reads them |
| `Cpu`, `Instructions`, `Bursts`, `Processor` | the fetch-execute cycle, what each instruction does, one burst of cycles, and the CPU process in place |
| `System`, `Handover`, `Schedules`, `Requests`, `BurstMoves` | kernel, CPU and memory together under any schedule, what reaches the memory process, and the CPU's loop as moves |
| `Operands`, `EnoughFrames`, `Restarts` | the page each process is about to use; when page-fault service does not die, and a page brought in is still there when its instruction is retried |
| `Progress`, `SoloRuns` | every live process can go on, and every solo run of a program is what some schedule makes of it |
| `Tours`, `TooFewFrames`, `LateDeaths`, `Reloads` | runs of the system in which service dies or a retry faults again, and so exactly when that can happen |
| `Resources`, `ResourceRuns`, `ServiceOrder`, `CallEffects`, `Exclusion`, `Stranding`, `KernelProcess` | resource counters and queues: accounting, what each call changes, order of service, mutual exclusion, waiting beside a free instance |
| `Files`, `FileChains`, `LostReads`, `FileProcess` | F_WRITE and F_READ over a given FAT |
| `Witnesses` | runs from boot that reach the states where the code goes wrong |
| `SwapArea`, `MemoryProcess` | the swap side of the filesystem process and the memory process in place |

## Assumptions

- Page size equals block size, and memory is a whole number of pages. The whole of user memory is
  small enough for a physical address to fit an `int` (`LateDeaths.AddressFits` where it matters).
- Each message handler is one step, and a CPU access (the frame request and the read or write that
  follows it) is one step with respect to page-fault service.
- Programs use memory operands that stay inside one page; `Crossing.StoreRightIff` and
  `Crossing.LoadRightIff` say exactly what happens without that. In the theorems about the whole
  system programs use no files: F_READ and F_WRITE are studied by themselves.
- A system call other than EXIT is, for the schedule theorem, a return to the kernel from which the
  process may come back at any later time, or never: how long the call blocks it, or whether the
  kernel ends it, is left to the schedule.
- The block file may hold anything at the start, so a new page shows what its swap block held.
- A page fault is raised only for an absent page, and each process has at most one pending. Both are
  proved of the whole system (`Schedules.AnySchedule`, `Requests.SystemRunsAreLegal`); they are
  requirements only where the memory process is looked at alone.
- The dispatcher skips pids of 100 and more (kernel/src/plani.c:333), and so does the model.
- Instructions arrive parsed: a program line is an operation together with the text of the message.
- Counters that the source keeps in an `int` or `uint32_t` (the access counter, resource counts) do
  not wrap. Registers, addresses and the program counter do.

## Where the code is not what one would expect

The code is modelled as it is; each of these is part of the statements below.

- A taken JNZ lands on target + 1 (cpu/src/instructions.c:40, cpu/src/cpu.c:271), and MOV_IN of
  0xFFFFFFFF leaves the register alone (cpu/src/instructions.c:82). The flat reference machine has
  the same two rules.
- A 4-byte access is not cut at the end of the frame: a store that crosses is right exactly when the
  next frame holds the next page of the same process, already modified (`Crossing.StoreRightIff`).
- Loading a page neither lists nor stamps it; only using it does. Fault service therefore dies when
  every frame holds a page that was loaded and not yet used (`TooFewFrames.FewerFramesCanDie`). With
  a frame for each live process whose pid is below 100 that never happens
  (`EnoughFrames.EnoughFramesNeverDie`).
- LRU looks only at stamps below MAX_LRU = 999999 (memoria/src/memoria.c:747-766), and the counter
  never starts again. From the 999999th access on a used page is no longer found, and service dies
  with any number of frames (`LateDeaths.LruDiesLate`). Taken together, service can die exactly when
  swap has more blocks than memory has frames, and the policy is LRU or there are fewer than a
  hundred frames (`LateDeaths.ServiceCanDieIff`).
- Loading a page leaves the stamp of an earlier stay in place (memoria/src/memoria.c:365-367). Under
  LRU such a page can be replaced before the instruction that asked for it is retried, and the retry
  faults again, with any number of frames (`Reloads.LruRetryCanFault`). All retries of all runs go
  through exactly under FIFO, or when swap has no more blocks than memory has frames, or when there
  is no frame at all (`Reloads.RetriesCompleteIff`). A single retry goes through for a page never
  used before (`Restarts.RetryAmongServes`) or when no other fault is served in between
  (`Restarts.RetryWithoutServe`).
- F_READ does not mark the target page as modified, because the call is commented out
  (memoria/src/memoria.c:1280-1281). The invariant survives exactly when the page was already
  modified or the data is what its swap block holds (`Files.WritePageKeepsIff`); otherwise the next
  replacement of the page leaves memory as if F_READ had never been (`LostReads.ReadForgotten`), and
  a run from boot gets there (`Witnesses.LostReadReached`).
- Swap starts at block `tamanio_fat - 1` (filesystem/src/filesystem.c:127). A file block with that
  number or above is a swap block: `Files.DiskWriteSafeIff` gives the exact condition for a write,
  and `Witnesses.OverwriteReached` a run in which F_WRITE changes another page of its process.
- Asking for more swap blocks than are free writes outside `swap[]`; this is a crash in the model.
- `ksignal` hands an instance to a waiter without taking it back from the counter
  (kernel/src/instructions.c:154-164), unlike `liberar_recursos` (kernel/src/kernel.c:671-672). The
  accounting theorem counts it. A single-instance resource can come to have two holders from some
  point of a run, without a further wake, if and only if a signal of the run woke a waiter
  (`Exclusion.ExclusiveIff`). The point matters: a wake can be hidden again by what follows
  (`Exclusion.WakeCanBeHidden`). The repaired call is shown to conserve the total.
- A process can be left waiting for a resource with an instance free: after a SIGNAL, for the reason
  above, or after the end of a process that held two instances or more, which wakes one waiter for
  all of them (kernel/src/kernel.c:665-672). `Stranding.StepStrands` says exactly when.
- A burst ended by FIN_PROCESO goes back to the ready list like one ended by a quantum
  (kernel/src/plani.c:419-426), although the kernel has put the process on its exit list as well.
  The model has the first of these.
- After SIGNAL by a process that does not hold the resource, `sem_exit` is posted twice, once in
  `finalizar_proceso_en_ejecucion` (kernel/src/kernel.c:708) and once by `ksignal`
  (kernel/src/instructions.c:185). Unless another process has reached the exit list by then,
  `exit_pcb` takes a second element off an empty list and goes on with NULL. The model lets the
  process leave and goes on.
- `leer_bloque_swap` frees its buffer before returning it (filesystem/src/filesystem.c:139); the
  model returns the bytes that were read.
- A process whose size is not a multiple of the page size gets one page more than it needs.

## Model

| member | source | states |
|---|---|---|
| Schedules.AnySchedule | kernel/src/plani.c:300-383 | over every run of starts, dispatches, cycles, interrupts, system calls, faults, services and exits, the states each process goes through (registers, program counter, memory) are those of its program alone on a flat memory, and a live process is now in the last of them |
| Schedules.ScheduleIndependence | kernel/src/plani.c:300-383 | two runs with different companions, schedules, memory sizes or policies give a program started alike the same states as far as both go |
| Schedules.DeathCauses | cpu/src/cpu.c:266-272 | a move kills the system if and only if the flat machine is stuck there, or a new process does not fit in swap, or a fault finds neither a free frame nor a page to replace |
| SoloRuns.EverySoloRunHappens | kernel/src/plani.c:300-435 | the converse: every run of a program alone on a flat memory, of any length, is the trace of that program in some run of the system, with as little as one frame (under LRU, with a frame for each page or with fewer than MAX_LRU memory accesses before the last step) |
| SoloRuns.HaltingProgramsLeave | kernel/src/plani.c:5-30 | and when that run ends with EXIT, the system finishes the process and is left with every frame and block free and its lists empty |
| SoloRuns.FaultingRunExists | kernel/src/plani.c:343-383 | from every boot with a frame, a swap block and pages of at least a word there is a run in which a process whose page starts out in swap stores a word, exits, and leaves nothing, having gone through the three states of its program |
| Progress.NextInstruction | kernel/src/plani.c:343-383 | from every reachable state with a frame for each page, or one for each process that can run (and fewer than MAX_LRU accesses under LRU), a live process below pid 100 that has not executed EXIT and is not stuck on its flat machine has a continuation that completes its next instruction |
| Progress.FreeCpu | cpu/src/cpu.c:59-72 | whoever is on the CPU can be taken off it by the one move its state calls for (fault, exit, return or interrupt), which nobody else notices |
| System.StepRight | kernel/src/plani.c:343-383 | every move keeps the system invariant and is, for each process, either nothing visible or exactly one instruction of the flat machine |
| System.TransmitExact | shared/src/shared_utils.c:417-478 | a context arrives as it was sent, through packet framing and both codecs |
| Handover.ContextOnTheWire | shared/src/shared_utils.c:417-424 | a context travels as the body of a packet of operation 14 with its size |
| Handover.MoveHandsOver | kernel/src/plani.c:343-383 | what the kernel keeps of every process after each move and what the CPU then holds: contexts change hands whole but for the reason (0 to 2 interrupts, 3 call, 4 fault, 5 fault served) and, at dispatch, the last instruction |
| System.ServeRight | kernel/src/kernel.c:930-1002 | page-fault service for one process keeps the system invariant and changes nothing that any process sees |
| System.FinishRight | kernel/src/plani.c:5-30 | the exit of the running process leaves every other process as it was |
| Requests.MoveRequests | kernel/src/kernel.c:930-1002 | each move of the system changes memory by at most one request, and that request is legal: fresh pid, absent page, access inside a resident page |
| Requests.SystemRunsAreLegal | kernel/src/plani.c:343-383 | the requests that the moves of a run send, in order, are a legal run of the memory process and lead to the same memory |
| Requests.SystemLru | memoria/src/memoria.c:738-766 | in every run of the system under LRU, serving a fault takes a page out exactly when no frame is free, and then the one whose last counted access among the requests of that run is oldest |
| Requests.SystemFifo | memoria/src/memoria.c:768-775 | and under FIFO, the one used first among those used since they were loaded |
| Operands.AdvancePending | kernel/src/plani.c:360-383 | every move keeps: a blocked process waits for the operand of its current instruction, and only pids below 100 are blocked, on the CPU or in memory |
| Operands.MoveEffect | memoria/src/memoria.c:245-388 | what each move does to stamps, residency and lists; a cycle uses exactly the operand page of its instruction, or faults on it and leaves memory alone |
| EnoughFrames.EnoughFramesNeverDie | memoria/src/memoria.c:310-380 | with a frame for each live process of pid below 100 (and fewer than MAX_LRU accesses under LRU) a pending fault is always served, after every run |
| EnoughFrames.HundredFramesDieLate | kernel/src/plani.c:333-340 | with a hundred frames or more service dies under LRU alone, and not before MAX_LRU accesses |
| EnoughFrames.SmallSwapNeverDies | memoria/src/memoria.c:321-334 | without more swap blocks than frames it never dies |
| EnoughFrames.AdvanceSpares | memoria/src/memoria.c:649-677 | in every move: a page no policy would choose is the operand its process is about to use |
| TooFewFrames.FewerFramesCanDie | memoria/src/memoria.c:333-334 | with fewer than a hundred frames and a swap block more than frames there is a run of the system that ends with a pending fault whose service kills the memory process |
| LateDeaths.LruDiesLate | memoria/src/memoria.c:747-766 | under LRU, with any number of frames and more swap blocks than that, there is a run of the system that ends with a pending fault whose service kills the memory process: MAX_LRU stores to one page, then one to each further page |
| LateDeaths.ServiceCanDieIff | memoria/src/memoria.c:310-380 | fault service can die, after some run of the system, if and only if there are more swap blocks than frames, and the policy is LRU or there are fewer than a hundred frames |
| Cpu.CycleRefines | cpu/src/cpu.c:266-272 | one cycle over paged memory is one instruction of the flat machine, or a page fault that changed no register, program counter or byte and names an absent page; it dies exactly where the flat machine is stuck |
| Cpu.FaultRestart | cpu/src/cpu.c:396-492 | on the memory that the service of its fault leaves, a faulting instruction retried does not fault and has the effect it would have had unfaulted |
| Restarts.RetryWithoutServe | cpu/src/cpu.c:396-492 | over whole runs: once the fault of a process has been served, its retry does not fault and completes the instruction, whatever other moves come in between, as long as no other fault is served |
| Restarts.RetryAmongServes | memoria/src/memoria.c:703-775 | the same with any other faults served in between, under FIFO, and under LRU when the page had no stamp from an earlier stay |
| Reloads.LruRetryCanFault | memoria/src/memoria.c:365-367 | without that: under LRU, with any number of frames and more swap blocks than that, a run in which the retry faults again, because the page kept its old stamp and was replaced first |
| Reloads.RetriesCompleteIff | memoria/src/memoria.c:310-380 | every retry of every run goes through if and only if the policy is FIFO, or swap has no more blocks than memory has frames, or there is no frame |
| Cpu.LoadRefines | cpu/src/instructions.c:76-90 | a MOV_IN through translation reads the process's flat array and changes no process's memory |
| Cpu.StoreRefines | cpu/src/instructions.c:93-102 | a MOV_OUT through translation updates the process's flat array at the logical address and nothing else |
| Cpu.CycleKeepsInv | cpu/src/cpu.c:266-272 | whatever the context, a cycle of a program with operands inside pages keeps the memory invariant |
| Cpu.FileOperandArrives | cpu/src/instructions.c:159-172 | an F_READ or F_WRITE faults and changes nothing, or carries a text that reads, with atoi, as the physical address of the operand in the frame that holds its page |
| Instructions.MachineMeans | cpu/src/instructions.c:3-102 | the flat machine on its registers and bytes: SET, SUM and SUB change one register and give the sum or difference less or plus 2^32 where it leaves 32 bits; MOV_IN puts the little-endian word at the address in one register, or changes nothing when it is 0xFFFFFFFF; MOV_OUT changes four bytes; a jump is taken when its register is not 0, and lands one past its target; and exactly where it is stuck |
| Instructions.CycleMeans | cpu/src/cpu.c:266-272 | the same of every cycle of the CPU over paged memory that completes, on the flat array of its process |
| Instructions.CycleReports | cpu/src/cpu.c:301-372 | what a cycle leaves in the context for the kernel: the number of the instruction, reason 3 for system calls, the text of the line, and every other field as it was |
| Instructions.SystemCallIff | cpu/src/cpu.c:375-394 | the CPU takes an instruction for a system call exactly when it is one of the calls, a file instruction or EXIT, or leaves the number of an earlier one in place |
| Instructions.CallArrives | cpu/src/instructions.c:55-125 | a system call reaches the kernel, through encoding and framing, with its own number, reason 3, the text of the line, and registers and program counter as the CPU left them |
| Instructions.FileCallArrives | cpu/src/instructions.c:127-172 | an F_READ or F_WRITE whose page is resident reaches the kernel as number 13 or 14 with a text of the declared length that is the physical address of the operand in decimal, NUL-terminated, and that atoi reads back; the line's own text must leave room for the digits, and physical addresses fit an int |
| Instructions.DigitsExact | cpu/src/instructions.c:168-170 | the text of a number has its decimal digits, the least number of them |
| Bursts.BurstOutcome | cpu/src/cpu.c:59-68 | a burst that ends has run whole instructions of the flat machine, all its cycles or all but a last faulting one; one that has not stopped before its n-th cycle dies there if and only if the flat machine is stuck there |
| Bursts.EndsOnce | cpu/src/cpu.c:59-68 | for given arrivals of interrupts a burst ends in one place |
| Bursts.EndsAtIff | cpu/src/cpu.c:59-62 | that is the first look at which there is a page fault, the number of a system call, or any interrupt that has arrived |
| Bursts.Motive | cpu/src/cpu.c:147-174 | the reason is 4 after a fault, otherwise 3 after a system call, otherwise the least number (0 quantum, 1 process end, 2 new process) of the interrupts that arrived |
| BurstMoves.BurstIsMoves | cpu/src/cpu.c:54-72 | a burst on the context of a ready process, whatever ends it, is a run of the system: its dispatch, one move for each cycle and the leaving move, which is the one its end calls for and carries the right reason, ending with the memory and the context that the loop leaves |
| Processor.CpuProcess.constructor | cpu/src/cpu.c:4-15 | the CPU starts with no context and every flag down |
| Processor.CpuProcess.TranslateDl | cpu/src/cpu.c:464-492 | the physical address, or -1 with the page-fault flag raised and the page named in the context, which is otherwise unchanged |
| Processor.CpuProcess.MoveInto | cpu/src/instructions.c:76-90 | MOV_IN in place: context, flag and memory are those of the specification |
| Processor.CpuProcess.MoveFrom | cpu/src/instructions.c:93-102 | MOV_OUT in place, likewise |
| Processor.CpuProcess.TranslateForFs | cpu/src/instructions.c:127-172 | F_READ and F_WRITE in place: the address in the text is replaced by the physical one, or the page fault is raised |
| Processor.CpuProcess.Decode | cpu/src/cpu.c:301-372 | every instruction in place, unrecognised ones included: context, flag and memory are those of the specification |
| Processor.CpuProcess.RunCycle | cpu/src/cpu.c:266-272 | fetch, decode and advance in place are exactly the cycle that refines the flat machine |
| Processor.CpuProcess.Notice | cpu/src/cpu.c:96-133 | arriving interrupts raise exactly their flags |
| Processor.CpuProcess.Burst | cpu/src/cpu.c:59-62 | the loop stops at the first look at its guard that finds a system call, a fault or an interrupt, and the state is that after so many cycles |
| Processor.CpuProcess.SetReason | cpu/src/cpu.c:147-174 | the reason set is the one that explains the end of the burst, from the flags in place |
| Processor.CpuProcess.Attend | cpu/src/cpu.c:54-72 | a dispatched context is run until the burst ends and is sent back with the reason that explains it: fault, system call, or the least interrupt that arrived; context and flags are then cleared |
| Processor.CpuProcess.ClearInterrupts | cpu/src/cpu.c:184-191 | all interrupt flags and the page-fault flag are down |
| Paging.ServeFaultKeeps | memoria/src/memoria.c:310-380 | fault service succeeds if and only if there is a free frame or a page to replace; it then keeps the invariant, makes the page resident and changes the contents of no page of any process |
| MemoryDetail.ServiceExact | memoria/src/memoria.c:310-380 | service in full: the lowest free frame, or that of the page to replace (FIFO: head of the list; LRU: least stamp, below 999999), whose bytes go to its swap block when modified; the page comes in unmodified with the bytes of its block and its old stamp; every other entry, frame, byte and block stays; it dies exactly when no frame is free and there is nothing to replace |
| MemoryDetail.StoreExact | memoria/src/memoria.c:1253-1271 | a store at a physical address: four bytes, least significant first, the page of the frame modified, stamped with the next tick and listed, and nothing else; it works exactly when the bytes are inside memory and the frame is occupied |
| MemoryDetail.LoadExact | memoria/src/memoria.c:1291-1313 | a load, likewise, with no byte changed |
| Paging.EvictKeeps | memoria/src/memoria.c:342-360 | taking a frame away, written back only when modified, loses no byte |
| Paging.InstallKeeps | memoria/src/memoria.c:321-368 | loading a page into a free frame keeps the one-to-one correspondence of frames and resident pages and every page's contents |
| Paging.VictimResident | memoria/src/memoria.c:703-775 | the chosen page is resident, and under LRU none resident has a smaller stamp |
| Access.PageAtHolder | memoria/src/memoria.c:982-1046 | the lookup from a frame back to an entry finds exactly the resident page that translation used |
| Access.StoreInPage | memoria/src/memoria.c:1253-1271 | a store inside a resident page succeeds, patches that page as its owner sees it, keeps the invariant and changes nothing else |
| Access.LoadInPage | memoria/src/memoria.c:1291-1313 | a load inside a resident page returns the owner's bytes and changes no page |
| Access.PokeKeeps | memoria/src/memoria.c:993-1010 | any write inside a resident page that also sets the dirty bit keeps the invariant and changes that page alone |
| Access.TouchKeeps | memoria/src/memoria.c:649-677 | stamping and listing an accessed page changes no page |
| FlatView.PatchedPage | memoria/src/memoria.c:1253-1271 | patching one page is patching its owner's flat array at the logical address |
| Crossing.StoreRightIff | memoria/src/memoria.c:1253-1262 | all stores at an offset are stores to the flat array if and only if they fit in the page or the next frame holds the next page, already modified |
| Crossing.LoadRightIff | memoria/src/memoria.c:1291-1296 | a load at an offset is a load from the flat array if and only if it fits in the page or what follows the frame reads as the next page does; so it is when the next frame holds that page |
| Crossing.CrossingWrong | memoria/src/memoria.c:1253-1262 | otherwise there is a value whose store is wrong |
| Witnesses.CrossingReached | memoria/src/memoria.c:1253-1262 | two requests after boot such a store is possible |
| MemoryProcess.Memoria.constructor | memoria/src/memoria.c:1186-1201 | the memory process starts with every frame free, no process, and the invariant |
| MemoryProcess.Memoria.FindFree | memoria/src/memoria.c:896-914 | the first free frame, or none |
| MemoryProcess.Memoria.CollectResident | memoria/src/memoria.c:849-872 | the resident pages of all processes in table order |
| MemoryProcess.Memoria.LeastStamp | memoria/src/memoria.c:747-766 | the first page with the least stamp below MAX_LRU, or none |
| MemoryProcess.Memoria.ChooseVictim | memoria/src/memoria.c:703-775 | the victim of the policy; under FIFO it also leaves the list |
| MemoryProcess.Memoria.SwapOut | memoria/src/memoria.c:342-360 | a modified page goes to its swap block, and its entry is cleared |
| MemoryProcess.Memoria.SwapIn | memoria/src/memoria.c:361-372 | a page gets a frame and the bytes of its swap block |
| MemoryProcess.Memoria.PageFault | memoria/src/memoria.c:310-380 | the handler in place is fault service of the specification, and succeeds in the same cases |
| MemoryProcess.Memoria.FrameOf | memoria/src/memoria.c:961-980 | the frame of a resident page, a page fault for an absent one, death for an unknown one |
| MemoryProcess.Memoria.EntryOfFrame | memoria/src/memoria.c:1018-1046 | the entry that holds a frame |
| MemoryProcess.Memoria.MarkUsed | memoria/src/memoria.c:649-677 | the page gets the next tick and is listed once; searching by swap block finds exactly that page |
| MemoryProcess.Memoria.StoreWord | memoria/src/memoria.c:1253-1271 | MOV_OUT in place is the store of the specification |
| MemoryProcess.Memoria.LoadWord | memoria/src/memoria.c:1291-1313 | MOV_IN in place is the load of the specification |
| MemoryProcess.Memoria.ReadForFs | memoria/src/memoria.c:1315-1337 | a page of bytes for the filesystem, which counts as a use |
| MemoryProcess.Memoria.WriteForFs | memoria/src/memoria.c:1273-1289 | a page of bytes from the filesystem into the frame of the address, without the dirty bit |
| MemoryProcess.Memoria.BuildTable | memoria/src/memoria.c:1112-1137 | the entries 0 to n - 1, absent, clean and never accessed |
| MemoryProcess.Memoria.AssignBlocks | memoria/src/memoria.c:1139-1155 | entry i gets the i-th reserved block |
| MemoryProcess.Memoria.CreateProcess | memoria/src/memoria.c:262-282 | creation in place is creation of the specification, and works in the same cases |
| MemoryProcess.Memoria.FreeFrames | memoria/src/memoria.c:925-938 | the frames of the process are free, and no other changes |
| MemoryProcess.Memoria.ForgetTouched | memoria/src/memoria.c:1401-1413 | the pages of the process leave the list; the others keep their order |
| MemoryProcess.Memoria.FinishProcess | memoria/src/memoria.c:283-309 | teardown in place is teardown of the specification |
| SwapMap.ReserveExact | filesystem/src/filesystem.c:195-210 | reserving n blocks works if and only if n are free; it hands out the n smallest free ids in increasing order and takes exactly those |
| SwapMap.ReleaseUndoesReserve | filesystem/src/filesystem.c:178-193 | freeing what was reserved restores the map |
| SwapMap.FreeIdsCount | filesystem/src/filesystem.c:166-176 | as many ids as free blocks |
| SwapArea.Filesystem.constructor | filesystem/src/filesystem.c:112-119 | every swap block free |
| SwapArea.Filesystem.FirstFree | filesystem/src/filesystem.c:166-176 | the smallest free id, or none |
| SwapArea.Filesystem.Reserve | filesystem/src/filesystem.c:195-210 | the loop hands out what the specification does, and goes outside the array in the same cases |
| SwapArea.Filesystem.Release | filesystem/src/filesystem.c:178-193 | exactly the listed ids inside the area are free afterwards besides those that were |
| SwapArea.Filesystem.ReadBlock | filesystem/src/filesystem.c:121-142 | the bytes of the block, counted from the end of the FAT |
| SwapArea.Filesystem.WriteBlock | filesystem/src/filesystem.c:144-164 | that block and no other is replaced |
| Lifecycle.CreateKeeps | memoria/src/memoria.c:1112-1155 | creation works if and only if the pages fit in the free blocks; it keeps the invariant (distinct owned swap ids among it), leaves every other page alone, and page i of the new process shows what the i-th smallest free block holds |
| Lifecycle.FinishKeeps | memoria/src/memoria.c:1352-1421 | teardown always works, frees exactly the frames, blocks and list entries of the process and leaves the contents of every other page |
| Accounting.FramesAccounted | memoria/src/memoria.c:901-945 | free frames plus resident pages are all the frames |
| Accounting.BlocksAccounted | filesystem/src/filesystem.c:166-210 | free blocks plus pages of live processes are all the swap blocks |
| Accounting.NothingLeaks | memoria/src/memoria.c:1390-1421 | with no process left every frame and block is free and the lists are empty |
| History.InitialInv | memoria/src/memoria.c:1191-1201 | the invariant holds at the start |
| History.HandleKeeps | memoria/src/memoria.c:245-388 | every legal request that succeeds keeps the invariant |
| History.RunKeeps | memoria/src/memoria.c:245-388 | the invariant holds after every run: frames and resident pages one to one, swap ids owned once, clean pages equal to their blocks, stamps distinct |
| Replacement.LruVictim | memoria/src/memoria.c:738-766 | after any run the LRU victim is the one resident page, of any process, whose last counted access is oldest, and there is none exactly when no resident page has one |
| Replacement.EveryAccessCounts | memoria/src/memoria.c:747-766 | below MAX_LRU accesses in all, every access counts |
| Replacement.FifoVictim | memoria/src/memoria.c:659-677 | after any run the list holds, once and in order of first use, exactly the resident pages used since they were loaded, and the victim is the first |
| PageCount.PagesNeededExact | memoria/src/memoria.c:1061-1069 | the exact number of pages; it covers the process with less than two pages to spare, and is the least such number if and only if the page size divides the size |
| PageCount.FramesFit | memoria/src/memoria.c:1186-1201 | the frames made lie inside memory if and only if the page size divides it |
| Codec.ContextRoundTrip | shared/src/shared_utils.c:363-478 | a context decodes to what was encoded, every field |
| Codec.ContextSizeRight | shared/src/shared_utils.c:366-376 | the declared size is the number of bytes written |
| Codec.InstructionRoundTrip | shared/src/shared_utils.c:488-547 | an instruction decodes to what was encoded, and its declared size is right |
| Codec.FsRoundTrip | shared/src/shared_utils.c:673-743 | the same for filesystem instructions |
| Codec.IdsRoundTrip | shared/src/shared_utils.c:746-807 | the same for lists of block ids |
| Codec.TakePacketBack | shared/src/shared_utils.c:213-234 | a packet in front of anything is read back alone |
| Codec.StreamRoundTrip | shared/src/shared_utils.c:26-39 | a stream of packets splits into the packets that were sent |
| WireFormat.ContextLayout | shared/src/shared_utils.c:363-415 | where each field of an encoded context is, byte by byte |
| WireFormat.InstructionLayout | shared/src/shared_utils.c:488-514 | the same for an instruction |
| WireFormat.FsLayout | shared/src/shared_utils.c:673-743 | the same for a filesystem instruction |
| WireFormat.IdsLayout | shared/src/shared_utils.c:746-763 | the same for a list of block ids |
| WireFormat.PacketLayout | shared/src/shared_utils.c:26-39 | the same for a packet: operation, size, body |
| Buffers.SerializeContext | shared/src/shared_utils.c:363-415 | memcpy at a moving offset fills a buffer of the declared size with exactly the encoding |
| Buffers.SerializePacket | shared/src/shared_utils.c:26-39 | the same for a framed packet |
| Buffers.SerializeIds | shared/src/shared_utils.c:746-763 | the growing buffer ends as the encoding of the list |
| Buffers.ReceiveContext | shared/src/shared_utils.c:426-478 | reading field by field is the decoder, short buffers included |
| Buffers.ReceiveIds | shared/src/shared_utils.c:785-807 | the loop reads the list that was encoded, or runs off a buffer of the wrong length |
| Buffers.Reader.GetInstruction | shared/src/shared_utils.c:524-541 | the lengths read decide how many bytes each parameter takes |
| Resources.WaitKeeps | kernel/src/instructions.c:55-117 | WAIT keeps the queues consistent: a blocked process waits for exactly one resource |
| Resources.SignalKeeps | kernel/src/instructions.c:142-175 | so does SIGNAL by a holder |
| Resources.ReleaseOneKeeps | kernel/src/kernel.c:631-687 | so does the release of one resource at exit |
| Resources.RebuildOfIdle | kernel/src/kernel.c:648-664 | the rebuild of the queue changes nothing for a process that waits for nothing |
| ResourceRuns.Accounting | kernel/src/instructions.c:142-175 | over any run, free plus held instances are the initial ones plus one for each signal that woke a waiter |
| ResourceRuns.ConservedIff | kernel/src/instructions.c:154-164 | the total is conserved if and only if no signal of the run woke a waiter |
| ResourceRuns.SingleHolder | kernel/src/instructions.c:55-117 | in runs without such a signal a single instance has at most one holder |
| ResourceRuns.RepairedConserved | kernel/src/kernel.c:665-672 | if SIGNAL took the handed instance back as exit does, the total would be constant over every run and a single instance would have at most one holder |
| Exclusion.WakeThenWait | kernel/src/instructions.c:142-175 | in every state with a waiter, a SIGNAL by a holder and then its WAIT leave both it and the waiter holding the resource |
| Exclusion.ExclusiveIff | kernel/src/instructions.c:154-164 | over runs that start with one instance: from no point of the run can two processes come to hold it without a further wake, if and only if no signal of the run woke a waiter |
| Exclusion.WakeCanBeHidden | kernel/src/instructions.c:66-117 | a run with a wake after which no continuation at all reaches two holders, because the woken process takes the extra instance and blocks on the resource itself |
| Exclusion.TwoHolders | kernel/src/instructions.c:154-164 | a run of seven calls after which two processes hold the only instance |
| Stranding.StepStrands | kernel/src/kernel.c:665-672 | where nobody waits beside a free instance, a call brings that about if and only if two processes wait and it is a SIGNAL by a holder or the end of one that holds two instances or more |
| Stranding.NeverStrandedIff | kernel/src/instructions.c:142-175 | over whole runs: nobody ever waits beside a free instance if and only if no call of the run is of that kind |
| Stranding.FreeWhileWaiting | kernel/src/instructions.c:154-164 | a run of seven calls after which a process waits beside a free instance |
| ServiceOrder.ServedInOrder | kernel/src/kernel.c:648-672 | over any run, those who started waiting for a resource are, in order, those who gained an instance while waiting followed by those still waiting |
| ServiceOrder.GainsIsPopped | kernel/src/instructions.c:159-167 | a waiter gains an instance in a call exactly when it is the head and a signal wakes it or a leaving holder frees one |
| ServiceOrder.StepOrder | kernel/src/kernel.c:648-672 | a call appends its process to the back of one queue, when WAIT finds no instance, or takes the head off, when a signal wakes it or a leaving holder frees one, and changes no queue otherwise |
| CallEffects.WhoRemains | kernel/src/plani.c:5-30 | a new process is there, one that ends (EXIT, unknown resource, SIGNAL without holding) is forgotten, and nobody else comes or goes |
| CallEffects.HoldsAfter | kernel/src/instructions.c:55-175 | how many instances each process holds of each resource after a call: WAIT takes one when there is one, SIGNAL gives one back, the head of the queue gets one from a signal or a leaving holder, and nobody else's count changes |
| CallEffects.FreeAfter | kernel/src/kernel.c:621-689 | and how many are free: less one for WAIT, one more for SIGNAL, and what a leaving process held less the one its first waiter gets |
| CallEffects.GoneMakesNoCall | kernel/src/plani.c:5-30 | over runs: a process that has ended makes no call until its pid is started again |
| KernelProcess.KernelState.constructor | kernel/src/kernel.c:485-498 | every resource with its instances, no process, nobody waiting |
| KernelProcess.KernelState.Spawn | kernel/src/plani.c:93-116 | a new process holds zero of every resource |
| KernelProcess.KernelState.Find | kernel/src/kernel.c:609-618 | whether the kernel has the resource |
| KernelProcess.KernelState.Kwait | kernel/src/instructions.c:55-140 | WAIT in place is WAIT of the specification; the process must leave exactly when there is no such resource |
| KernelProcess.KernelState.Ksignal | kernel/src/instructions.c:142-211 | SIGNAL in place, likewise; the process must leave exactly when it holds none or there is no such resource |
| KernelProcess.KernelState.RemoveBlocked | kernel/src/plani.c:488-502 | the first entry of the pid leaves cola_block |
| KernelProcess.KernelState.Drain | kernel/src/kernel.c:648-658 | the first loop keeps every waiter but the exiting process, in order |
| KernelProcess.KernelState.Refill | kernel/src/kernel.c:659-664 | the second loop restores the queue |
| KernelProcess.KernelState.ReleaseResource | kernel/src/kernel.c:631-687 | one turn of the release loop is the release of that resource |
| KernelProcess.KernelState.ExitPcb | kernel/src/kernel.c:621-689 | the whole loop releases every resource, and the process is forgotten |
| KernelProcess.KernelState.Attend | kernel/src/plani.c:388-419 | a call, followed by the exit it may cause, is one step of the runs above, and the processes afterwards are those that remain |
| Files.FileWriteExact | filesystem/src/filesystem.c:883-920 | F_WRITE of a resident page to a block below the swap area stores its bytes there and changes no process's memory |
| Files.FileRoundTrip | filesystem/src/filesystem.c:883-965 | a later F_READ of the same file position puts what F_WRITE took into the target page, wherever the chain leads, if FAT and block are unchanged in between |
| FileChains.WalkIff | filesystem/src/filesystem.c:928-931 | the block found is the last of the sequence in which each block is what the FAT holds for the one before; there is none exactly when that sequence leaves the table |
| FileChains.WriteMoves | filesystem/src/filesystem.c:883-916 | F_WRITE at a position puts the page of bytes that starts at the physical address in that block and nowhere else, marks the page of the address as used, and works exactly when block, bytes and page exist |
| FileChains.ReadMoves | filesystem/src/filesystem.c:918-965 | F_READ puts that block in the frame of the physical address, byte for byte and nowhere else, and works exactly when block and address exist |
| Files.DiskWriteSafeIff | filesystem/src/filesystem.c:863-881 | a block write spares every process if and only if each page kept in that block is modified in memory or finds the same bytes; blocks below the swap area always do |
| Witnesses.OverwriteReached | filesystem/src/filesystem.c:434-453 | from every boot a run in which F_WRITE to the block after the FAT changes another page of the process |
| Files.WritePageKeepsIff | memoria/src/memoria.c:1273-1289 | F_READ into a page keeps the invariant if and only if the page was modified or the bytes are those of its swap block, and then changes that page alone |
| Files.ReadThenEvictedIsLost | memoria/src/memoria.c:1280-1281 | otherwise taking the page out leaves in its swap block something else than F_READ brought |
| LostReads.ReadForgotten | memoria/src/memoria.c:342-372 | and when the policy chooses that page at a fault, the memory is exactly what it would be without the F_READ |
| LostReads.ReadLostIff | memoria/src/memoria.c:1280-1281 | the data survives that if and only if it was what the swap block held |
| Witnesses.LostReadReached | memoria/src/memoria.c:1280-1281 | from every boot with one frame, under either policy, a run to such a state |
| FileProcess.FileServer.Walk | filesystem/src/filesystem.c:907-910 | the loop over the FAT ends at the last block of the chain from the first one, and stops exactly when the chain leaves the table |
| FileProcess.FileServer.FWrite | filesystem/src/filesystem.c:883-916 | F_WRITE in place is F_WRITE of the specification |
| FileProcess.FileServer.FRead | filesystem/src/filesystem.c:918-965 | F_READ in place, likewise |
| Words.LeRoundTrip | shared/src/shared_utils.c:363-415 | a word survives its four bytes |
| Words.SplitAddress | memoria/src/memoria.c:982-991 | frame and offset are recovered from a physical address |

## Left out

- Sockets, handshakes, configuration, logging, sleeps, the readline console and shutdown: plumbing.
- Aliasing of page entries: the source shares pointers between tables and lists; here an entry is named by its process and index, and the list holds those names.
- MemoryProcess.Memoria.PageFault: says nothing of the memory left behind when the process dies for want of a page to replace, since nothing runs on it.
- Processor.CpuProcess.Attend: takes and returns the bytes of the context; copying them through the socket is the subject of the `Buffers` and `Codec` members. It asks for operands inside pages, because after a page-crossing store the memory invariant may be gone (`Crossing.StoreRightIff`).
- Processor.CpuProcess.Burst: the same demand on operands, for the same reason.
- Crossing.StoreRightIff: page sizes below four bytes, where a word spans more than two pages.
- Crossing.CrossingWrong: the same page sizes.
- Crossing.LoadRightIff: the same page sizes.
- MemoryProcess.Memoria.constructor: only memory that is a whole number of pages; `PageCount.FramesFit` says that the frames made fit exactly then.
- Resources.ReleaseOneKeeps: an exiting process that still waits in a queue; see the forced exit below.
- KernelProcess.KernelState.Attend: after SIGNAL by a non-holder the second `sem_post(&sem_exit)`, which makes `exit_pcb` go on with NULL, is not modelled; the process leaves and the kernel goes on.
- The order and contents of the messages between memory and filesystem inside one handler: each exchange is a call.
- `finalizar_proceso` as a move of the system: the FIN_PROCESO interrupt and what the dispatcher does with it are modelled, the kernel's forced removal of the process is not.
- The link between a WAIT or SIGNAL in a program and the call it becomes: in the schedule theorem a system call is a return to the kernel, and what the call does to resources is in `Resources`.
- ResourceRuns.Accounting: only running processes make calls and exit; the forced exit of a blocked process, which leaves it in queues of resources it does not hold, is not covered.
- F_READ as a move of the schedule theorem: without the dirty mark it breaks the memory invariant (`Files.WritePageKeepsIff`).
- F_WRITE as a move of the schedule theorem: by itself it changes no process's memory (`Files.FileWriteExact`), but the page that its fault brings in is used only later, when the filesystem reads it, and the theorems on fault service count a page as in use from its fault to the completion of its instruction.
- FAT growth and shrinking: the chains it builds link to themselves; the FAT is a given table.
- File open and close locks, and directory files: reader and writer exclusion is not what the code keeps.
- Scheduler lists, multiprogramming bound, round-robin order, pause and resume, semaphore counts and deadlock detection, which only logs.
- Parsing of instruction text and of the configuration.
- `double` is modelled as `real`: the quotients of `PageCount` are of 32-bit integers, which a double divides exactly enough for their ceiling.
