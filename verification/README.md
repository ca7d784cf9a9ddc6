# Nachos, modelled and proved in Dafny

This project models the parts of the Nachos teaching kernel, and of the lab work built on it, whose
correctness is hardest to see from the code, and proves what they promise.

* **Demand paging** (`Paging.dfy`). Translation through an inverted page table, page replacement with
  any victim and write-back of dirty pages. Every run of loads, stores, faults and thread switches
  is a run of flat private memories, refusals included: an access is refused exactly when it is
  misaligned or its page is not in a frame, and a load gives, byte by byte, what was last stored.
* **The processor** (`Mult.dfy`, `Decode.dfy`, `Cpu.dfy`, `Mips.dfy`, `Control.dfy`, `Isa.dfy`). The
  shift-and-add multiplier is exact, decoding inverts the encoding of the instruction set, and the
  delayed load is invisible to an instruction exactly when there is no hazard. Registers read and
  written, program counters, addresses and requests to memory follow the switch of the simulator; the
  arithmetic on the operands and what the memory answers are parameters, so the results hold for any
  of them, and `Mips.dfy` gives the arithmetic of the source. `Control.dfy` proves from which
  addresses the instructions of a thread are fetched over any run, and `Isa.dfy` what each instruction
  leaves in the registers and sends to memory, in the terms of a manual of the instruction set.
* **Threads** (`Threads.dfy`, `List.dfy`, `Schedule.dfy`). Thread ids, states, the priority ready list
  on the linked nodes, sleeping, finishing and the deferred deletion of finished threads; the kernel
  object with its tables and its list performs every run of events as specified. Over every run the
  processor goes to the READY thread with the smallest priority, and of equals to the one that has
  been READY longest.
* **Synchronization and the protocols built on it** (`Synch.dfy`, `Monitor.dfy`, `SynchList.dfy`,
  `BoundedBuffer.dfy`, `Barrier.dfy`, `ReadersWriters.dfy`, `Handshake.dfy`, `SynchDisk.dfy`,
  `Post.dfy`). Each is a transition system whose steps are the stretches between places where
  interrupts are enabled; a run is any sequence of steps of any threads. Lists, buffers and barriers
  are programs for one monitor; the disk and the network device share one handshake; the post office
  is put together from the senders' handshakes, the link, the worker and the mail boxes, each of
  which is a synchronized list. None of them leaves anybody behind: if nothing but a new call can
  change the state, every call has returned or waits for what is not there.
* **Simulated time** (`Interrupt.dfy`, `DiskTiming.dfy`). The interrupt queue and clock, with no
  interrupt lost or delivered twice, and the disk's seek, rotation and track-buffer model.
* **The file system** (`Bitmap.dfy`, `FileHeader.dfy`, `OpenFile.dfy`, `Allocate.dfy`,
  `Directory.dfy`, `Volume.dfy`, `FileSystem.dfy`, `FileRuns.dfy`, `FsTest.dfy`). A word-packed free
  map, headers chained across sectors, reading and writing by sectors, the directory, formatting and
  `Create`, and copying a file in and printing it ten bytes at a time.
  Every run behaves like a map from names to byte strings; the map and the places of the files decide
  every answer, up to a request after which no account of the disk is consistent.

Words are integers with their width written out; the disk is a sequence of 1024 sectors of 128
bytes; the network link is a lossy first-in first-out queue. Random numbers, clock readings, what
interrupt handlers do and values read from uninitialised memory are parameters or arbitrary values.

Some things the code does not do, each stated with the exact condition under which it does:

* `FileHeader::Allocate` compares the free sectors with the data sectors only. The last data sector
  it records is real exactly when there is room for the chain of headers too (`Allocation.Allocate`),
  and the comparison is enough exactly for files of at most 26 data sectors
  (`Allocation.TestSuffices`). A file of exactly 26 data sectors makes it write a header to an
  uninitialised sector number, and a negative size gives a header with a negative length.
* `FileSystem::Create` reports success all the same. The disk it leaves is consistent, under any
  account of its files, exactly when the size was not negative, there was room for the chain and, for
  26 data sectors, the uninitialised number was not the sector of some header
  (`FileSystems.FileSystem.Create`, `Volumes.Created`). On a disk just formatted 125440 bytes are too many for the chain, with 128000
  the kernel stops in the middle, and 3328 bytes can destroy the directory
  (`FileRuns.NoRoomHappens`, `FileRuns.HaltHappens`, `FileRuns.StrayHappens`).
* A new thread that gets the id of a deleted one is sure to see its own store, of any size, exactly
  when no frame is still marked with that id (`Paging.ReuseIsFresh`); deletion does not clear the
  frames, and one read is enough to leave a mark (`Paging.StaleFrame`).
* In any run a finished thread is deleted, and its id comes back, exactly when a thread that has run
  before gets the processor before another thread finishes (`Threads.FinishedIdReturns`). The thread
  dispatched next need not be the one (`Threads.LateReturnHappens`). A second thread that finishes
  first leaks the id for good (`Threads.SecondFinishLeaks`, `Threads.LeakedForever`), and that happens
  five events after the start (`Threads.LeakHappens`).
* Putting an early interrupt back keeps the order of the queue exactly when no other is due at the
  same time (`InterruptEngine.PutBackRotates`, `InterruptEngine.TieRotates`).
* A pending load is invisible to an instruction, whatever is computed from the operands it reads,
  exactly when the instruction neither reads an old operand in a way that can show nor writes the
  pending register (`Cpu.HazardIffVisible`, `MipsArithmetic.EarlyReadShows`); a run without hazards
  equals the run of a machine whose loads take effect at once, requests to memory included
  (`Cpu.DelaySlotInvisible`).

## Model

| member | source | states |
|---|---|---|
| `Multiplier.Mult` | machine/mipssim.cc:636-693 | for all 32-bit operands, hi and lo together are the exact 64-bit product, unsigned or two's complement |
| `Multiplier.MultiplyBits` | machine/mipssim.cc:660-679 | the shift-and-add loop with its early exit and arithmetic shift computes the exact unsigned product |
| `Multiplier.Round` | machine/mipssim.cc:664-679 | one round adds the shifted multiplicand for an odd multiplier and halves the multiplier |
| `Multiplier.NextBit` | machine/mipssim.cc:660-679 | the invariant of the loop survives a round, within 64 bits |
| `Multiplier.AllBits` | machine/mipssim.cc:660-679 | when the multiplier is used up the sum is the product, also for a negative multiplier |
| `Multiplier.AddDouble` | machine/mipssim.cc:666-669 | two-word addition with carry adds the 64-bit values |
| `Multiplier.ShiftDouble` | machine/mipssim.cc:673-677 | two-word shift doubles the 64-bit value |
| `Multiplier.NegateDouble` | machine/mipssim.cc:681-689 | complementing both words and adding one negates modulo 2 to the 64 |
| `Multiplier.MakePositive` | machine/mipssim.cc:644-656 | the magnitude as an unsigned word, right for the most negative input too, and the sign flipped once per negative operand |
| `Multiplier.SignedMagnitude` | machine/mipssim.cc:644-689 | the signed product is the product of magnitudes with the combined sign |
| `Decoder.Decode` | machine/mipssim.cc:590-627 | every 32-bit word decodes to register numbers below 32 and an opcode that the switch handles, so its default assertion is unreachable |
| `Decoder.TableEntryHandled` | machine/mipssim.h:117-134 | every entry of the primary table is handled or leads to a secondary decoding |
| `Decoder.SpecialEntryHandled` | machine/mipssim.h:141-150 | every entry of the secondary table is handled |
| `Decoder.DecodeAssembleI` | machine/mipssim.cc:590-627 | decoding an assembled immediate instruction gives back its opcode, registers and sign-extended immediate |
| `Decoder.DecodeAssembleR` | machine/mipssim.cc:590-627 | decoding an assembled register instruction gives back every field |
| `Decoder.DecodeAssembleJ` | machine/mipssim.cc:607-609 | a jump decodes to its own opcode and the 26 bits of its target |
| `Decoder.DecodeAssembleCond` | machine/mipssim.cc:612-626 | a word with the code of the conditional branches decodes to the branch that its rt field names, and any other field traps |
| `Decoder.DecodeInstruction` | machine/mipssim.h:117-150 | every instruction, assembled with the code that the MIPS instruction set gives it, decodes to itself with all its fields |
| `Decoder.DecodesOnlyItsCode` | machine/mipssim.h:117-150 | a word decodes to an instruction only if it has the code of that instruction; all other words trap |
| `Decoder.EveryOpcodeHasCode` | machine/mipssim.h:117-150 | every opcode that the switch handles, the two for illegal words apart, has such a code |
| `Cpu.Machine.DelayedLoad` | machine/mipssim.cc:576-583 | the register array afterwards is the specified one: the pending load lands, the new one is recorded, register 0 is cleared |
| `Cpu.Machine.RaiseException` | machine/machine.cc:119-130 | a trap finishes the delayed load before the kernel runs |
| `Cpu.Machine.Execute` | machine/mipssim.cc:124-568 | one decoded instruction leaves the specified registers and makes the specified request to memory, whether it completes, faults, overflows or fails an assertion, for any arithmetic on the operands that the switch reads; what these registers and requests are is told by the rows of `Control` and `InstructionSet` |
| `Cpu.Machine.Switch` | machine/mipssim.cc:124-470 | results, jumps and links in the order of the source: a link register is written before rs is read |
| `Cpu.Machine.Load` | machine/mipssim.cc:232-344 | alignment tests, the address asked for, sign extension, and the value that LWL and LWR merge into |
| `Cpu.Machine.Store` | machine/mipssim.cc:384-533 | the address and the part of the register that reach memory; SWL and SWR read the word first |
| `MipsArithmetic.OverflowExact` | machine/mipssim.cc:126-144 | the sign tests of ADD, ADDI and SUB trap exactly when the exact result is not a 32-bit number |
| `MipsArithmetic.ProductWords` | machine/mipssim.cc:362-370 | what MULT and MULTU leave in hi and lo is what the multiplier returns |
| `MipsArithmetic.DivisionInC` | machine/mipssim.cc:196-204 | DIV gives quotient and remainder towards zero |
| `Cpu.Machine.OneInstruction` | machine/mipssim.cc:94-570 | the instruction is fetched at the program counter; fetch, decode and execute give the specified outcome and keep register 0 zero and the pending-load target a general register |
| `Cpu.StepKeepsOk` | machine/mipssim.cc:94-570 | the same two facts hold after any instruction, whatever memory, arithmetic and kernel do |
| `Cpu.NextKeepsOk` | threads/thread.cc:320-343 | they hold across traps, interrupts and thread switches for the registers of every thread |
| `Cpu.Run` | machine/mipssim.cc:30-46 | they hold at the end of every run, for the running thread and all saved ones |
| `Cpu.PendingLands` | machine/mipssim.cc:94-583 | a pending load is in its register after exactly one more instruction, completed or trapped, unless that fails an assertion |
| `Cpu.LoadLandsNext` | machine/mipssim.cc:94-583 | the load itself leaves its register as it was, or with an earlier pending load; and its own value is there after the next instruction, interrupt or trap that does not fail an assertion, after which only a new load can be pending |
| `Cpu.SettledStep` | machine/mipssim.cc:94-583 | finishing the pending load first changes neither what an instruction without hazard does nor what it asks of memory |
| `Cpu.HazardIffVisible` | machine/mipssim.cc:94-583 | for every arithmetic on the operands that the switch reads, every reply of memory and every kernel, finishing the pending load first makes no difference to registers or memory requests, if and only if the instruction has no hazard |
| `Cpu.NoHazardInvisible` | machine/mipssim.cc:94-583 | without a hazard both executions end alike and ask the same of memory |
| `Cpu.LoadShows` | machine/mipssim.cc:232-344 | an old base register shows in the address asked for, trapped at or asserted on |
| `Cpu.StoreShows` | machine/mipssim.cc:384-533 | an old register shows in the address or in the bytes that reach memory |
| `Cpu.OperandShows` | machine/mipssim.cc:162-230 | an old operand shows where a jump or branch goes, unless both ways are the same, and in hi and lo |
| `Cpu.ResultShows` | machine/mipssim.cc:126-160 | a result shows that is lost to the load, or computed from an old operand, unless it goes to register 0 without an overflow |
| `MipsArithmetic.EarlyReadShows` | machine/mipssim.cc:150-152 | an addition right after a load uses the old value of the register |
| `Cpu.SettledEvent` | threads/thread.cc:320-343 | the same for an instruction, interrupt or thread switch and the registers of every thread |
| `Cpu.DelaySlotInvisible` | machine/mipssim.cc:30-583 | every run of instructions, interrupts and thread switches, up to a failed assertion, that has no hazard leaves the registers of all threads, fetches the instructions and makes the requests to memory of a machine whose loads take effect at once |
| `Control.CountersAfter` | machine/mipssim.cc:119-568 | after every instruction that ends, the previous program counter is the old one, the program counter is the old next one, and the next one is where the instruction directs control: past the delay slot, to the branch target when a branch is taken, to the register or within the 256 megabytes of a jump; a trap leaves them to the kernel and a failed assertion moves nothing |
| `Control.TargetExact` | machine/mipssim.cc:162-230 | where each instruction directs control, modulo 2 to the 32 |
| `Control.StepCounters` | machine/mipssim.cc:102-568 | the same from the fetched word |
| `Control.TrapsCleanly` | machine/machine.cc:119-130 | an instruction that traps has no effect of its own: the pending load lands, the bad address is reported and whatever else changes was written by the kernel |
| `Control.SwitchKeepsRegisters` | threads/thread.cc:320-343 | a thread finds all its registers as it left them |
| `Control.ThreadPath` | machine/mipssim.cc:30-568 | over every run of instructions, interrupts, traps of others and switches, a thread whose instructions all end fetches from its program counter, then from its next program counter, and then from where its first instruction directed control, its second, and so on; so a branch takes effect exactly one instruction late |
| `InstructionSet.RegistersAfter` | machine/mipssim.cc:124-570 | what every instruction that ends leaves in each general register: a pending load lands even over the result, the result is the sum, difference, bitwise combination, shift, comparison, upper immediate, hi, lo or link of the registers and immediate that the instruction names, and no other register changes |
| `InstructionSet.ComputesExact` | machine/mipssim.cc:126-543 | the result of each opcode with the arithmetic of the source, modulo 2 to the 32 or bit by bit; OR combines rs with itself and the shifts to the right all keep the sign |
| `InstructionSet.LogicalExact` | machine/mipssim.cc:154-545 | AND, NOR, XOR and their immediate forms, for each of the 32 bits, the immediate with zeros above |
| `InstructionSet.HiLoAfter` | machine/mipssim.cc:196-370 | what every instruction that ends leaves in hi and lo: the exact product, or quotient and remainder towards zero, zeros for a zero divisor |
| `InstructionSet.TakenExact` | machine/mipssim.cc:162-194 | each branch is taken on its own condition on rs and rt, a linking one after register 31 is written |
| `InstructionSet.AddEnds` | machine/mipssim.cc:126-470 | ADD, ADDI and SUB end exactly when the sum or difference of the registers is a 32-bit number |
| `InstructionSet.LoadAfter` | machine/mipssim.cc:232-344 | a load that ends asked for 1, 2 or 4 bytes at rs plus the offset and leaves them pending for rt, with their sign or zeros above, or merged |
| `InstructionSet.NothingPending` | machine/mipssim.cc:94-570 | no other instruction leaves a load pending |
| `InstructionSet.StoreAfter` | machine/mipssim.cc:384-533 | a store that ends sent the lowest 1, 2 or 4 bytes of rt to rs plus the offset, SWR the lowest byte on top of the word read |
| `Paging.Machine.constructor` | machine/machine.cc:55-75 | with all frames invalid each thread sees exactly its backing store |
| `Paging.Machine.Translate` | machine/translate.cc:186-285 | exactly misaligned addresses and missing pages fault; otherwise the address lies in the frame of the current thread's page, only use and dirty bits change and nobody's memory does |
| `Paging.Machine.ReverseTableReplace` | machine/machine.cc:182-233 | for any victim the wanted page becomes present and no thread's visible bytes change |
| `Paging.Machine.ChooseFrame` | machine/machine.cc:185-209 | the first invalid frame among those searched, otherwise any frame |
| `Paging.Machine.WriteBack` | machine/machine.cc:211-219 | a dirty victim's page replaces its part of its owner's store, and nothing else changes |
| `Paging.Machine.BringIn` | machine/machine.cc:221-230 | the frame holds the page of the current thread, clean and valid |
| `Paging.Machine.RaiseException` | userprog/exception.cc:236-247 | handling a page fault makes the page present and is otherwise invisible |
| `Paging.Machine.ReadMem` | machine/translate.cc:87-127 | succeeds exactly when aligned and present, and then returns the value of the thread's visible bytes, whose digits are those bytes (`Paging.LoadedByte`) |
| `Paging.Machine.WriteMem` | machine/translate.cc:137-169 | a successful store changes exactly its 1, 2 or 4 bytes of the current thread's memory, to the digits of the value (`Paging.StoredByte`), and nobody else's; a failed one changes nothing visible |
| `Paging.Machine.Step` | machine/translate.cc:87-169 | each operation does to the flat memories and the set of resident pages what it should, and answers as these say |
| `Paging.Machine.Run` | machine/translate.cc:87-169 | every run with any victims is a run of flat private memories and a set of resident pages: each access is refused exactly when misaligned or not resident, a refused one brings its page in, an accepted one reads or writes the flat memory |
| `Paging.RefusedExactly` | machine/translate.cc:186-285 | an access is refused exactly when a word is not at a multiple of 4, a half word not at a multiple of 2, or its page of 128 bytes is absent; then that page is brought in and at most one leaves |
| `Paging.RetrySucceeds` | userprog/exception.cc:236-247 | an aligned access that is repeated right after it was refused is not refused again |
| `Paging.LookupResident` | machine/translate.cc:242-253 | the search succeeds exactly for resident pages |
| `Paging.FlatRunRemembers` | machine/translate.cc:87-169 | in every such run each byte is the last one written there by an accepted store, or the initial one |
| `Paging.LoadsRemember` | machine/translate.cc:87-169 | in every such run an accepted load gives, byte by byte, what stores of any size last put there or the initial bytes, signed for one byte and unsigned for two |
| `Paging.StoredByte` | machine/translate.cc:137-169 | byte k of a store is digit k of the value to the base 256 |
| `Paging.LoadedByte` | machine/translate.cc:87-127 | digit k of a loaded value is byte k; one byte is signed, two are not |
| `Paging.ReplaceInvisible` | machine/machine.cc:182-233 | replacement keeps the three invariants together and every visible byte |
| `Paging.ReplaceKeepsClean` | machine/machine.cc:182-233 | after replacement clean pages still equal their stores and no page is mapped twice |
| `Paging.IncomingByte` | machine/machine.cc:221-230 | the bytes of the page brought in are the ones the store held |
| `Paging.OutgoingByte` | machine/machine.cc:211-219 | the bytes of the victim survive in its owner's store |
| `Paging.BystanderByte` | machine/machine.cc:182-233 | all other bytes are read from where they were |
| `Paging.TouchInvisible` | machine/translate.cc:278-280 | setting use and dirty bits changes no visible byte |
| `Paging.WriteVisible` | machine/translate.cc:137-169 | a store through a dirty frame changes exactly the written range of one thread's memory |
| `Paging.LoadAfterStore` | machine/translate.cc:87-169 | what is stored is loaded again, cut to its size |
| `Paging.ReuseIsFresh` | threads/thread.cc:76-85 | a reused thread id is sure to see its new store, of any number of pages, with the invariant and the other threads' memories kept, if and only if no valid frame carries that id |
| `Paging.StaleByte` | threads/thread.cc:76-85 | with such a frame there is a store that is not seen |
| `Paging.StaleFrame` | machine/machine.cc:182-233 | on a new machine one read leaves such a frame |
| `Paging.LookupUnique` | machine/translate.cc:242-253 | the search finds the only frame that maps a page |
| `LinkedList.List.Append` | threads/list.cc:76-88 | the contents grow by the item at the end |
| `LinkedList.List.IsEmpty` | threads/list.cc:154-161 | tells exactly whether there is nothing in the list |
| `LinkedList.List.FindPlace` | threads/list.cc:191-198 | the walk stops at the last element with a key not above the new one |
| `LinkedList.List.LinkAt` | threads/list.cc:184-201 | the nodes are the old ones with the new one in between, pointers included |
| `LinkedList.List.SortedInsert` | threads/list.cc:178-202 | the contents are the sorted insertion of the item into the old ones |
| `LinkedList.List.SortedRemove` | threads/list.cc:217-237 | returns and removes the first item, or reports an empty list |
| `LinkedList.List.Remove` | threads/list.cc:124-128 | the same without the key |
| `LinkedList.InsertedSplits` | threads/list.cc:178-202 | insertion puts the item behind all smaller or equal keys and before all larger ones |
| `LinkedList.InsertedSorted` | threads/list.cc:178-202 | insertion keeps a list sorted |
| `LinkedList.InsertedMultiset` | threads/list.cc:178-202 | insertion loses and invents nothing |
| `Threads.Nachos.constructor` | threads/thread.cc:35-62 | the object starts out as the kernel with only the main thread |
| `Threads.Nachos.NewThread` | threads/thread.cc:35-62 | granted exactly when an id is free, and then the kernel is the specified one |
| `Threads.FreeId` | threads/thread.cc:38-46 | the least id that is not taken |
| `Threads.Nachos.ReadyToRun` | threads/scheduler.cc:54-71 | the thread becomes ready and a node for it enters the linked list behind its priority (`Scheduling.MadeReadyEntry`) |
| `Threads.Nachos.FindNextToRun` | threads/scheduler.cc:81-86 | the first node of the linked list leaves it, or there is none |
| `Threads.Nachos.SwitchTo` | threads/scheduler.cc:102-147 | the next thread runs, and one that has run before deletes a finished thread |
| `Threads.Nachos.DoFork` | threads/thread.cc:107-119 | forking performs the specified step and keeps the kernel invariant on the object |
| `Threads.Nachos.DoYield` | threads/thread.cc:194-210 | yielding performs the specified step and keeps the kernel invariant on the object |
| `Threads.Nachos.DoSleep` | threads/thread.cc:231-246 | going to sleep performs the specified step and keeps the invariant |
| `Threads.Nachos.DoFinish` | threads/thread.cc:163-174 | finishing performs the specified step and keeps the invariant |
| `Threads.Nachos.DoWake` | threads/synch.cc:92-103 | waking the head of a queue performs the specified step and keeps the invariant |
| `Threads.Nachos.DoDispatch` | threads/thread.cc:231-246 | the thread of the first node runs; its recorded priority is least, and its arrival earliest among ties, of all nodes of the linked list |
| `Threads.Nachos.DoAll` | threads/scheduler.cc:54-147 | any sequence of events leaves the object, its tables and its linked list as the specified run does |
| `Threads.NextKeepsInv` | threads/thread.cc:35-246 | every event keeps ids and pointer table in agreement, ready members READY, listed once, in priority and arrival order, and sleeping members BLOCKED in one queue |
| `Threads.CreateKeepsInv` | threads/thread.cc:35-62 | creating a thread keeps the invariant |
| `Threads.ForkKeepsInv` | threads/thread.cc:107-119 | forking keeps the invariant |
| `Threads.YieldKeepsInv` | threads/thread.cc:194-210 | yielding keeps the invariant |
| `Threads.SleepKeepsInv` | threads/thread.cc:231-246 | sleeping keeps the invariant |
| `Threads.FinishKeepsInv` | threads/thread.cc:163-174 | finishing keeps the invariant |
| `Threads.DispatchKeepsInv` | threads/scheduler.cc:102-147 | dispatching keeps the invariant |
| `Threads.WakeKeepsInv` | threads/synch.cc:92-103 | moving the head of a queue to the ready list keeps the invariant |
| `Threads.ReclaimKeepsInv` | threads/thread.cc:76-85 | deleting a finished thread keeps the invariant and frees its id |
| `Threads.BootOk` | threads/thread.cc:35-62 | the kernel with only the main thread satisfies the invariant |
| `Threads.Run` | threads/scheduler.cc:54-147 | every run keeps the invariant |
| `Threads.AtMostOneQueue` | threads/scheduler.cc:54-147 | in every reachable state a thread is in at most one queue and the running thread in none |
| `Threads.DispatchPicksFirst` | threads/scheduler.cc:81-86 | the thread dispatched has the least key on the list, the earliest arrival among ties; which keys those are is told by the rows of `Scheduling` |
| `Scheduling.MadeReadyEntry` | threads/scheduler.cc:54-71 | becoming ready puts exactly one entry on the list, with the thread's priority at that moment, and leaves the others |
| `Scheduling.NextIsFirst` | threads/scheduler.cc:54-147 | over every run from the boot state, whoever `Yield` or the search in `Sleep` hands the processor to was READY, and no other READY thread had a smaller priority when it became so, or the same one and became so earlier |
| `Scheduling.NextHasLeastPriority` | threads/scheduler.cc:54-147 | on a run without `SetPriority` no READY thread has a smaller priority than the one that gets the processor, and of those with the same none has been READY longer |
| `Scheduling.PriorityAsGiven` | threads/thread.h:110-111 | a thread's priority is the one that its constructor or `SetPriority` last gave it |
| `Scheduling.WakesLongest` | threads/synch.cc:92-103 | over every run, waking a thread from a queue makes READY just the one that has slept there longest |
| `Scheduling.EventMoves` | threads/thread.cc:107-246 | which status each event gives to each thread; nobody else moves |
| `Scheduling.ChronicleKept` | threads/scheduler.cc:54-147 | over every run the keys on the ready list are the priorities at arrival, its stamps follow the arrivals, and every queue is in the order of going to sleep |
| `Threads.FinishedIdReturns` | threads/scheduler.cc:136-139 | from any state, over any run: a finished thread is deleted and its id given back if and only if a thread that has run before gets the processor before another thread finishes |
| `Threads.MarkedStep` | threads/scheduler.cc:102-147 | what each event does to a thread marked for deletion |
| `Threads.SecondFinishLeaks` | threads/thread.cc:163-174 | finishing while another finished thread waits for deletion leaks the other one |
| `Threads.LeakedForever` | threads/thread.cc:163-174 | a leaked thread keeps its id in every later run |
| `Threads.LeakHappens` | threads/thread.cc:163-174 | two threads that finish one after the other leak the id of the first, in any continuation |
| `Threads.LateReturnHappens` | threads/scheduler.cc:136-139 | the id comes back later although the thread dispatched next had not run before |
| `InterruptEngine.Interrupt.constructor` | machine/interrupt.cc:60-72 | starts with interrupts off and nothing pending |
| `InterruptEngine.Interrupt.Schedule` | machine/interrupt.cc:264-275 | a node for the interrupt enters the sorted linked list at its due time |
| `InterruptEngine.Interrupt.CallHandler` | machine/interrupt.cc:327-333 | the handler's own requests are scheduled from the present and the machine status is restored |
| `InterruptEngine.Interrupt.Deliver` | machine/interrupt.cc:327-334 | a delivery is logged with its due time and leaves as many due entries as before |
| `InterruptEngine.Interrupt.TakeFirst` | machine/interrupt.cc:299-303 | the first node leaves the linked list, and nothing left was due earlier |
| `InterruptEngine.Interrupt.PutBack` | machine/interrupt.cc:309-319 | an entry that is not due goes back into the linked list |
| `InterruptEngine.Interrupt.CheckIfDue` | machine/interrupt.cc:290-336 | fires exactly when an entry is due or the clock may advance, and not for a lone timer when idle; firing delivers the first entry, never early, and leaves one due entry fewer |
| `InterruptEngine.Interrupt.Drain` | machine/interrupt.cc:169-170 | the loop ends with nothing due left; every interrupt that was pending or that a handler scheduled meanwhile is still pending or was delivered, once; a yield was asked for exactly if it was before or by one of these handlers |
| `InterruptEngine.Interrupt.OneTick` | machine/interrupt.cc:150-179 | advances by the tick of the mode, in the account of the mode, and delivers everything due, nothing lost or twice; reports a yield exactly if one was asked for before or by a handler; the total stays idle plus system plus user ticks |
| `InterruptEngine.Interrupt.Idle` | machine/interrupt.cc:210-234 | halts exactly when nothing but the timer is left; otherwise idle time passes until the first interrupt is due, it and everything else due is delivered, nothing lost or twice |
| `InterruptEngine.Interrupt.SetLevel` | machine/interrupt.cc:114-127 | time advances, by one tick and with everything due delivered, exactly when interrupts go from off to on; otherwise nothing happens |
| `InterruptEngine.ScheduledLater` | machine/interrupt.cc:264-275 | requests for the future keep the queue sorted and add nothing due |
| `InterruptEngine.InsertedDueCount` | machine/interrupt.cc:290-336 | inserting counts as due exactly when it is |
| `InterruptEngine.DeliveredInDueOrder` | machine/interrupt.cc:290-336 | deliveries are never early and come in nondecreasing due time |
| `InterruptEngine.TimelyDelivered` | machine/interrupt.cc:327-334 | a delivery and what its handler schedules keep the list sorted, the log timely and the number of due entries |
| `InterruptEngine.BalancedDelivery` | machine/interrupt.cc:299-334 | a delivery takes one interrupt off the list, puts those of its handler there, and keeps the account of all interrupts |
| `InterruptEngine.ScheduledEntries` | machine/interrupt.cc:264-275 | a series of calls to `Schedule` adds exactly the entries asked for |
| `InterruptEngine.PutBackRotates` | machine/interrupt.cc:309-312 | putting the first entry back leaves the queue as it was if and only if no second entry is due at the same time |
| `InterruptEngine.TieRotates` | machine/interrupt.cc:309-312 | two interrupts due at the same time change places when the first is looked at too early |
| `DiskTiming.ModuloDiff` | machine/disk.cc:203-210 | the rotation to the wanted sector position, below one turn |
| `DiskTiming.Seek` | machine/disk.cc:180-195 | bounded, and zero exactly on the same track |
| `DiskTiming.SeekPerTrack` | machine/disk.cc:180-195 | the head needs the seek time for every track that it crosses, in either direction |
| `DiskTiming.Rotation` | machine/disk.cc:180-195 | the wait to the next sector boundary |
| `DiskTiming.HitIffPassed` | machine/disk.cc:233-254 | the track buffer is used if and only if it is a read on the same track whose sector passed the head completely since buffering began |
| `DiskTiming.HitTakesOneSector` | machine/disk.cc:233-254 | a read from the track buffer takes the time of one sector |
| `DiskTiming.MissEndsWithSector` | machine/disk.cc:233-254 | every other request ends exactly as its sector ends, at the first passage after the seek, within a fixed bound |
| `DiskTiming.SlotCongruent` | machine/disk.cc:203-210 | the computed passage is the first one |
| `DiskTiming.Disk.Request` | machine/disk.cc:115-154 | the latency of the model, with the buffer time aligned to rotations and never beyond the request's completion |
| `DiskTiming.Disk.HandleInterrupt` | machine/disk.cc:162-167 | completion leaves the head where it is |
| `Semaphores.TryPOk` | threads/synch.cc:69-82 | a pass through the loop of P sleeps exactly on value zero and loses no wakeup |
| `Semaphores.VOk` | threads/synch.cc:92-103 | V loses no wakeup and moves at most one sleeper |
| `Semaphores.NobodySleepsOnValue` | threads/synch.cc:69-103 | when a thread sleeps although the value is positive, another one has been woken |
| `SemaphoreRuns.SemaphoreSafe` | threads/synch.cc:69-103 | over every interleaving the value is initial plus Vs minus completed Ps, never negative, and no wakeup is lost |
| `SemaphoreRuns.FirstAsleepFirstWoken` | threads/synch.cc:69-103 | over every interleaving threads are woken in the order in which they went to sleep |
| `Locks.TryOk` | threads/synch.cc:113-116 | taking the lock sleeps exactly while it has an owner and disturbs nobody else |
| `Locks.ReleaseOk` | threads/synch.cc:117-120 | release frees the lock for those attending to it |
| `Locks.FreeLockHasTaker` | threads/synch.cc:113-120 | a free lock with sleepers has a woken thread about to take it |
| `CriticalSections.MutualExclusion` | threads/synch.cc:113-123 | over every interleaving at most one thread holds the lock and it counts as the holder throughout its section |
| `SynchObjects.Semaphore.StepP` | threads/synch.cc:69-82 | the value and the linked queue change as the step of P says, keeping the wakeup invariant |
| `SynchObjects.Semaphore.DoV` | threads/synch.cc:92-103 | the value and the linked queue change as V says |
| `SynchObjects.Condition.Enqueue` | threads/synch.cc:131-139 | waiting puts the caller at the end of the linked queue |
| `SynchObjects.Condition.Signal` | threads/synch.cc:140-149 | readies the first waiter of the linked queue exactly when the caller holds the lock and there is one |
| `SynchObjects.Condition.Broadcast` | threads/synch.cc:150-160 | readies all waiters in order exactly when the caller holds the lock |
| `ConditionRuns.FirstWaitingFirstReady` | threads/synch.cc:131-160 | over every sequence of waits, signals and broadcasts threads are made ready in the order in which they began to wait |
| `ConditionRuns.HowManyReady` | threads/synch.cc:140-160 | a signal by the holder of the lock makes one waiter ready if there is any, a broadcast all, and by anybody else they do nothing |
| `Monitors.TriedOk` | threads/synch.cc:113-116 | a pass through `Acquire` keeps the monitor in order: one holder, every waiter in the queue of its condition |
| `Monitors.LeftOk` | threads/synch.cc:117-120 | leaving frees the lock and keeps the monitor in order |
| `Monitors.WaitedOk` | threads/synch.cc:131-139 | waiting queues the caller, frees the lock and keeps the monitor in order |
| `Monitors.ReacquiredOk` | threads/synch.cc:131-139 | a pass through the `Acquire` at the end of `Wait` keeps the monitor in order |
| `Monitors.SignalOk` | threads/synch.cc:140-149 | a signal moves at most the first waiter and keeps the monitor in order |
| `Monitors.SignalCounts` | threads/synch.cc:140-149 | a signal by the holder that finds a waiter sends exactly one more thread on its way back |
| `Monitors.BroadcastOk` | threads/synch.cc:150-160 | a broadcast moves all waiters of the condition and keeps the monitor in order |
| `Monitors.FreeLockUnwanted` | threads/synch.cc:113-160 | if the lock is free and nobody takes it, all threads are away or wait for a signal |
| `SynchLists.RunKeepsInv` | threads/synchlist.cc:53-82 | the invariant of lock, condition and list holds in every run of any number of threads |
| `SynchLists.RemovedIsPrefix` | threads/synchlist.cc:53-82 | items removed are a prefix of items appended, the rest is in the list, and no NULL comes out unless one went in |
| `SynchLists.NoSignalLost` | threads/synchlist.cc:53-82 | with the lock free and waiters queued there are at least as many signalled waiters as items |
| `SynchLists.ItemsFindTakers` | threads/synchlist.cc:70-82 | then some thread can go on and take an item |
| `SynchLists.NobodyStuck` | threads/synchlist.cc:53-82 | over every run: if nothing but a new call can change the state, whoever has not returned is in `Remove`, and the list is empty |
| `SynchLists.CallsAppend` | threads/synchlist.cc:53-62 | each item of a thread's calls of `Append` goes on the list once, in the order of the calls, before the call returns |
| `SynchLists.CallsRemove` | threads/synchlist.cc:70-82 | each call of `Remove` that has returned took one item |
| `BoundedBuffer.RunKeepsInv` | threads/threadtest.cc:139-182 | the invariant holds in every run of any producers and consumers |
| `BoundedBuffer.BufferBounded` | threads/threadtest.cc:139-182 | the count is the list length, between 0 and the maximum, and consumed products are a prefix of produced ones |
| `BoundedBuffer.NoSignalLost` | threads/threadtest.cc:139-182 | no signal of either condition is lost |
| `BoundedBuffer.NobodyStuck` | threads/threadtest.cc:139-182 | over every run: if nothing but a new call can change the state, whoever has not returned waits, a producer at a full buffer or a consumer at an empty one |
| `BoundedBuffer.CallsChangeOnce` | threads/threadtest.cc:139-182 | every call makes or uses exactly one product before it returns |
| `Barrier.RunKeepsInv` | threads/threadtest.cc:73-92 | the invariant holds in every run for any number of members |
| `Barrier.NobodyPassesEarly` | threads/threadtest.cc:73-92 | nobody is past the barrier before all have arrived, and then nobody is left waiting |
| `Barrier.LastArrivalFindsAll` | threads/threadtest.cc:73-92 | the last arrival finds exactly all the others in the queue and readies every one |
| `Barrier.EverybodyPasses` | threads/threadtest.cc:73-92 | over every run: when nobody can move any more, every member is past the barrier |
| `ReadersWriters.RunKeepsInv` | threads/threadtest.cc:43-70 | the invariant holds in every run of any readers and writers |
| `ReadersWriters.Exclusion` | threads/threadtest.cc:43-70 | a writer excludes other writers and all readers although the lock is passed between readers, and no increment is lost |
| `ReadersWriters.NobodyStuck` | threads/threadtest.cc:43-70 | over every run: if nothing but a new call can change the state, every reader and writer has returned |
| `ReadersWriters.CallsVisitOnce` | threads/threadtest.cc:43-70 | every writer's call increments once and every reader's reads once before it returns |
| `Handshakes.RunKeepsInv` | filesys/synchdisk.cc:72-109 | lock, semaphore and completion interrupt stay in step in every run of any threads, for any kind of request |
| `Handshakes.OneRequestAtATime` | filesys/synchdisk.cc:72-109 | the device is never asked while busy and at most one completion is outstanding; busy is what `Disk::active` records and what `Network::sendBusy` is meant to, although `Network::Send` never sets it |
| `Handshakes.ReturnsAfterOwnCompletion` | filesys/synchdisk.cc:72-109 | a caller returns only after the completion of its own request |
| `Handshakes.NobodyStuck` | filesys/synchdisk.cc:72-109 | over every run: if no thread can go on and no interrupt is outstanding, every call has returned |
| `Handshakes.CallsReachDevice` | filesys/synchdisk.cc:72-109 | the requests of a thread's calls reach the device once each, in the order of the calls, before the call returns |
| `Handshakes.BusyFails` | machine/disk.cc:115-154 | a request while the device is busy fails its assertion; it is busy from a request to the completion interrupt |
| `SynchDisks.RunKeepsInv` | filesys/synchdisk.cc:72-109 | with the disk as device, the sectors are those of a plain disk after the logged requests and every buffer holds what a plain disk gives, in every run |
| `SynchDisks.OneRequestAtATime` | filesys/synchdisk.cc:72-109 | the device's assertion never fails and at most one completion is outstanding |
| `SynchDisks.ReturnsAfterOwnCompletion` | filesys/synchdisk.cc:72-109 | a caller returns only after the completion of its own request, with the data of the disk at that point of the order of requests |
| `SynchDisks.ReadReturnsLast` | filesys/synchdisk.cc:72-85 | a read returns what the requests that reached the disk before it last wrote to its sector, or the initial contents |
| `SynchDisks.EveryCallServed` | filesys/synchdisk.cc:72-109 | a thread's requests all get to the disk, in the order of its calls, and nobody is stuck in a call |
| `WireFormat.WireRoundTrip` | network/post.cc:261-291 | unpacking a packed message gives back headers and data |
| `WireFormat.WireLayout` | machine/network.h:31-38 | the bytes on the wire: receiver, sender and length of the packet, the same of the mail, the data |
| `PostOffices.OnWireIntact` | network/post.cc:222-246 | the bytes that the device puts on the link decode to the mail that was sent, with lengths that pass the assertions on arrival |
| `PostOffices.RunKeepsInv` | network/post.cc:99-345 | senders, devices, link, interrupt, worker and mail boxes stay in step in every run, packets lost or not: the bytes on the link and in the buffer have legal lengths, each mail box is a synchronized list that got what the worker delivered to it, and what is under way is a subsequence of what was sent |
| `PostOffices.NoAssertionFails` | network/post.cc:222-318 | no assertion fails: the sender's header at its device, the address and length on arrival, the box and the length at the worker, the length at the receiver; the worker never reads an empty buffer, and no device is asked to send while it is busy |
| `PostOffices.MailInOrder` | network/post.cc:99-345 | the mail taken from a box is, peer by peer, a subsequence of what that peer's device was given for this machine and box: in order, uncorrupted and without duplicates; what may be missing is told by the next rows |
| `PostOffices.FlowIsCarried` | machine/network.cc:104-127 | over every run, what was delivered and what is under way is, in order, exactly what the devices were given for this machine at the steps at which the link lost nothing |
| `PostOffices.NothingLost` | machine/network.cc:104-127 | on a run without losses everything sent is delivered or under way, in the order of sending |
| `PostOffices.MailComplete` | network/post.cc:99-345 | if the link loses nothing of a peer's, the peer's mail that was taken from a box, is in it or is under way to it is, in this order, all that the peer's device was given for this machine and box |
| `PostOffices.EverythingArrives` | network/post.cc:99-345 | over every run: if nothing but new calls can change anything, every `Send` has returned, nothing is under way, nobody waits at a box that holds mail, and what a peer's device was given, the link losing nothing of it, is in its box or was taken |
| `PostOffices.SenderIsHandshake` | network/post.cc:261-291 | each peer's sending side goes through the run of a handshake, of its steps and of its calls that pass the checks |
| `PostOffices.BoxIsSynchList` | network/post.cc:99-141 | each mail box goes through the run of a synchronized list, of the worker's puts and the receivers' removals |
| `PostOffices.CallsServed` | network/post.cc:261-318 | each `Receive` that has returned took one piece of mail, and each `Send` that passed the checks gave its mail to the device before it returned |
| `PostOffices.AssertionsFire` | network/post.cc:222-318 | the assertions that are found to hold do fail when their conditions are violated |
| `PostOffices.ReceiverFails` | network/post.cc:305-318 | so does the one on the length of the mail received |
| `PostOffices.SendReturnsAfterOwn` | network/post.cc:261-291 | `Send` returns only after its own message went to the device and the device reported it gone |
| `PostOffices.MailFindsTaker` | network/post.cc:122-141 | mail in a box with waiting receivers and a free lock has a thread on its way to take it |
| `Bits.SetBitTests` | userprog/bitmap.cc:46-51 | setting a bit changes the test of that bit only |
| `Bits.ClearBitTests` | userprog/bitmap.cc:60-65 | clearing a bit changes the test of that bit only |
| `Bitmaps.BitMap.constructor` | userprog/bitmap.cc:20-27 | the set is empty |
| `Bitmaps.BitMap.Mark` | userprog/bitmap.cc:46-51 | adds exactly the element |
| `Bitmaps.BitMap.Clear` | userprog/bitmap.cc:60-65 | removes exactly the element |
| `Bitmaps.BitMap.Test` | userprog/bitmap.cc:74-83 | tells exactly whether the element is in the set |
| `Bitmaps.BitMap.Find` | userprog/bitmap.cc:94-103 | returns and adds the least absent element, or -1 with nothing changed when there is none |
| `Bitmaps.BitMap.NumClear` | userprog/bitmap.cc:111-119 | the size of the complement |
| `Bitmaps.BitMap.Load` | userprog/bitmap.cc:148-152 | the set is the one that the bytes read from the file stand for |
| `Bitmaps.AbsentIsComplement` | userprog/bitmap.cc:111-119 | counting clear bits one by one gives the size of the complement |
| `Bitmaps.StoredSetRestored` | userprog/bitmap.cc:148-165 | the set written back is the set fetched again |
| `Headers.HeaderRoundTrip` | filesys/filehdr.cc:101-118 | a header written to a sector is read back the same |
| `Headers.JustEnough` | filesys/filehdr.cc:45-64 | the sectors are just enough for the bytes and the headers for the sectors |
| `Headers.Disk.FetchFrom` | filesys/filehdr.cc:101-105 | the header that the sector holds |
| `Headers.Disk.WriteBack` | filesys/filehdr.cc:114-118 | the sector holds the header, and no other sector changes |
| `Headers.ByteToSector` | filesys/filehdr.cc:130-145 | walking the chain gives the data sector of every offset of the file |
| `Headers.FileFrame` | filesys/filehdr.cc:130-145 | a file stays described while its header sectors do not change |
| `OpenFiles.OpenFile.constructor` | filesys/openfile.cc:31-39 | opening brings the header of the file into memory |
| `OpenFiles.OpenFile.ReadAt` | filesys/openfile.cc:129-157 | the bytes of the file from the position on: something is moved exactly if something is asked for and the position is inside the file; then all of the request, or everything up to the end |
| `OpenFiles.OpenFile.ReadSectors` | filesys/openfile.cc:147-151 | the sectors of the request in file order |
| `OpenFiles.OpenFile.PrepareBuffer` | filesys/openfile.cc:175-192 | the buffer holds the new contents of every sector touched, the old bytes around the request included |
| `OpenFiles.OpenFile.WriteAt` | filesys/openfile.cc:159-200 | exactly the bytes moved are replaced: something is moved exactly if something is asked for and the position is inside the file; then all of the request, or everything up to the end; no sector outside the file's data changes, so headers and other files stay |
| `OpenFiles.OpenFile.WriteSectors` | filesys/openfile.cc:194-198 | the buffer goes to the file's sectors and the headers stay readable |
| `OpenFiles.OpenFile.Read` | filesys/openfile.cc:78-88 | reads on from the position as `ReadAt` does, advances it by what was read, stamps the header and changes nothing else on the disk |
| `OpenFiles.OpenFile.Write` | filesys/openfile.cc:90-101 | writes on from the position as `WriteAt` does, advances it by what was written, stamps the header and changes nothing but the file's data and the sector of the header |
| `FsTest.ReadOn` | filesys/fstest.cc:90-92 | reading ten bytes at a time until nothing comes brings everything from the position to the end, byte by byte |
| `FsTest.WriteOn` | filesys/fstest.cc:63-64 | writing ten bytes at a time puts all the bytes there, in order, and leaves the bytes after them |
| `FsTest.Print` | filesys/fstest.cc:78-97 | the whole file comes out, in order, and no file changes; for an unknown name nothing happens |
| `FsTest.Copy` | filesys/fstest.cc:32-70 | a new file under the name with exactly the bytes given, or what `Create` reports, and no other file changes outside a sector with a stray header; nothing is said where `Create` would leave an inconsistent disk |
| `FsTest.Fill` | filesys/fstest.cc:58-64 | the second half of `Copy`: the bytes go into the file and into no other |
| `OpenFiles.OpenFile.Stamp` | filesys/openfile.cc:83-98 | recording the times and writing the header back keeps the file and its bytes |
| `OpenFiles.OpenFile.Length` | filesys/openfile.cc:207-211 | the length of the file |
| `OpenFiles.Assemble` | filesys/openfile.cc:184-192 | reading the partial sectors first preserves the bytes around the request |
| `OpenFiles.RequestRead` | filesys/openfile.cc:143-154 | the slice of the sectors read is the requested range of the file |
| `OpenFiles.RequestWritten` | filesys/openfile.cc:175-198 | writing the buffer back splices the new bytes into the file |
| `Allocation.Allocate` | filesys/filehdr.cc:41-70 | full exactly when data sectors outnumber free ones, and then nothing changes; stopped exactly when a header goes to a sector not on the disk; sectors in use never change except for 26 data sectors; the last data sector is real exactly when the chain fits too; then, unless there are 26 data sectors, headers and data lie on distinct formerly free sectors, exactly those are marked, and nothing else on the disk changes; with 26 a second copy of the header goes to the uninitialised number; a negative size takes no sector and goes into the header as it is |
| `Allocation.Fill` | filesys/filehdr.cc:48-62 | the loop's effect on the bitmap, the chain and the header being filled |
| `Allocation.NextHeader` | filesys/filehdr.cc:53-60 | starting another header completes the previous one and keeps the layout in order |
| `Allocation.NextData` | filesys/filehdr.cc:61-61 | the data sector found is -1 exactly when the bitmap was full |
| `Allocation.Finish` | filesys/filehdr.cc:63-69 | the last header is written exactly for 26 data sectors or more, and the run stops exactly when its sector number is not on the disk |
| `Allocation.TestSuffices` | filesys/filehdr.cc:46-47 | comparing free and data sectors guarantees room for the chain if and only if there are at most 26 data sectors |
| `Allocation.BuiltChained` | filesys/filehdr.cc:52-64 | once the last header is written every header of the chain describes its share of the file |
| `Allocation.FindSucceeds` | userprog/bitmap.cc:94-103 | a search succeeds exactly when fewer than all sectors are marked |
| `Directories.TableRoundTrip` | filesys/directory.cc:64-81 | a directory written back and fetched again is the same |
| `Directories.Directory.FindIndex` | filesys/directory.cc:91-98 | the first entry in use with the name, or -1 |
| `Directories.Directory.Find` | filesys/directory.cc:109-117 | the header sector of the name, or -1 |
| `Directories.Directory.Add` | filesys/directory.cc:130-146 | succeeds exactly when the name is new and an entry is free, fills the first free entry, and otherwise changes nothing |
| `Directories.Directory.FetchFrom` | filesys/directory.cc:64-68 | the table is the one the file holds |
| `Directories.Directory.WriteBack` | filesys/directory.cc:77-81 | the file then holds the table, and nothing but its data sectors changes |
| `Directories.AddedLookUp` | filesys/directory.cc:130-146 | adding a name changes the answer for that name only |
| `FileSystems.FileSystem.Format` | filesys/filesys.cc:81-138 | any disk becomes consistent, with the three special files on ten sectors and no names |
| `FileSystems.FileSystem.Mount` | filesys/filesys.cc:139-145 | any disk is opened; a consistent one is taken as it is |
| `FileSystems.FileSystem.Create` | filesys/filesys.cc:177-218 | returns FALSE exactly for a known name, a full directory or too few free sectors for header and data, and then nothing changed; stops in the middle exactly when `Allocate` does, and then every file is as before; otherwise returns TRUE, and no account of the disk is consistent if the size was negative, the chain did not fit or a stray header hit a header, while in all other cases the disk is consistent with the new file, its name, the sectors it takes, the old names, and the old bytes outside a sector with a stray header |
| `Volumes.SoundCreate` | filesys/filesys.cc:202-210 | with room for the chain and not 26 data sectors the three writes give a consistent disk with the new file and the old bytes |
| `Volumes.SpareCreate` | filesys/filesys.cc:202-210 | with 26 data sectors and a stray header that hits no header the disk is consistent too; every file keeps all bytes outside that sector |
| `Volumes.StrayCreate` | filesys/filesys.cc:202-210 | a stray header over any header leaves no consistent account of the disk |
| `Volumes.NoRoomCreate` | filesys/filesys.cc:202-210 | without room for the chain the old files keep their places and bytes, but no account of the disk is consistent |
| `Volumes.NegativeCreate` | filesys/filesys.cc:202-210 | with a negative size the old files keep their bytes, but no account of the disk is consistent |
| `Volumes.StrayInconsistent` | filesys/filehdr.cc:63-65 | the file whose header was hit claims a sector of the new file, or a special file has the wrong length |
| `Volumes.SameFile` | filesys/filehdr.cc:130-145 | the headers on the disk determine the length and the data sectors of a file |
| `Volumes.QuietConsistent` | filesys/filesys.cc:202-206 | changes outside the sectors in use leave a consistent disk consistent |
| `FileSystems.FileSystem.Proceed` | filesys/filesys.cc:202-212 | what follows the checks, case by case |
| `FileSystems.FileSystem.Begin` | filesys/filesys.cc:188-200 | the checks before allocation, made in memory only |
| `FileSystems.FileSystem.WriteAll` | filesys/filesys.cc:206-210 | the header, the directory and the free map are written, in that order, whatever is on the disk |
| `FileSystems.FileSystem.Commit` | filesys/filesys.cc:206-210 | the three writes restore consistency with the new file in if and only if the request was sound |
| `FileSystems.FileSystem.Open` | filesys/filesys.cc:230-244 | opens exactly the file that the directory gives for the name, or nothing |
| `FileSystems.FileSystem.WriteFile` | filesys/openfile.cc:159-200 | writing through an opened name changes that file's bytes as asked and no other file, name or mark |
| `FileSystems.FileSystem.ReadFile` | filesys/openfile.cc:129-157 | reading through an opened name returns that file's bytes |
| `FileSystems.FileSystem.SeekAndWrite` | filesys/openfile.cc:90-101 | opening, seeking and writing changes that file's bytes as asked and no other file, name or mark, the stamped header included |
| `FileSystems.FileSystem.SeekAndRead` | filesys/openfile.cc:78-88 | opening, seeking and reading returns that file's bytes and changes no file's bytes although the header is stamped |
| `Volumes.ReadAfterWrite` | filesys/openfile.cc:129-200 | reading a written request back returns the bytes written |
| `Volumes.WriteKeeps` | filesys/openfile.cc:194-198 | writing to one file keeps every file in place and the bytes of the others |
| `Volumes.LayingKeeps` | filesys/filesys.cc:203-208 | a new file on free sectors keeps the ownership of sectors single and complete and all old bytes |
| `FileSystems.Formatted` | filesys/filesys.cc:94-111 | the three special files own disjoint sectors and exactly these are marked |
| `Volumes.ListedAdded` | filesys/directory.cc:130-146 | the directory names exactly the files again, each name and sector once |
| `FileRuns.Run` | filesys/filesys.cc:81-244 | every run of creating, writing and reading by name, at a position or through seeking, is a run of a map from names to byte strings and sectors, which decides every answer: a request to create is declined exactly for a known name, ten names or too few sectors left, stops the kernel exactly when a header has no sector, breaks the disk exactly for a negative size, no room for the chain or a stray header on a header, and otherwise adds a file on new sectors and changes nothing else but a struck sector; the run ends at the first answer that stops, breaks or is undefined; at a break no account of the disk is consistent, and otherwise the disk shows the last map |
| `FileRuns.FormatAndRun` | filesys/filesys.cc:81-244 | the same for any disk that is formatted first, starting from the empty map |
| `FileRuns.DoMake` | filesys/filesys.cc:177-218 | the answer to a request to create follows what `Create` reports and what the disk is like afterwards: consistent with the new file in it, or not consistent under any account |
| `FileRuns.MakeDone` | filesys/filesys.cc:202-210 | a sound `Create` adds one file on sectors of its own to the picture and keeps the rest, bytes in a struck sector apart |
| `FileRuns.OthersWhole` | filesys/filesys.cc:202-210 | a file keeps all its bytes unless the struck sector is one of its data sectors |
| `FileRuns.MakeShows` | filesys/filesys.cc:177-218 | `Create` adds one entry to that map |
| `FileRuns.StrikesHeader` | filesys/filehdr.cc:63-65 | which sectors hold headers can be read off the names and the places of their files |
| `FileRuns.HoldsHeader` | filesys/filehdr.cc:130-145 | walking the directory and every chain of headers tells exactly whether a sector holds a header |
| `FileRuns.PutShows` | filesys/openfile.cc:159-200 | writing changes one entry of that map |
| `FileRuns.FullDirectory` | filesys/directory.cc:130-146 | the directory has no free entry exactly when the map has ten names |
| `FileRuns.RefusedByMap` | filesys/filesys.cc:188-204 | whether `Create` refuses can be read off the map |
| `FileRuns.UsagePick` | filesys/filesys.cc:188-204 | the sectors taken by the files of a map do not depend on the order of counting |
| `FileRuns.FormattedShowsNothing` | filesys/filesys.cc:81-138 | after formatting the map is empty |
| `FileRuns.FormatAndCreate` | filesys/filesys.cc:177-218 | for the first file on a formatted disk, by its size: refused above 1013 data sectors, stopped where the chain finds no sector, reported as made but inconsistent where it is negative, the chain does not fit or a stray header hits one of the three headers, and sound otherwise |
| `FileRuns.NoRoomHappens` | filesys/filehdr.cc:46-47 | 125440 bytes on a formatted disk: success is reported and no account of the disk is consistent |
| `FileRuns.HaltHappens` | filesys/filehdr.cc:52-60 | 128000 bytes on a formatted disk: the kernel stops |
| `FileRuns.StrayHappens` | filesys/filehdr.cc:63-65 | 3328 bytes on a formatted disk can overwrite the header of the directory, and success is reported |

## Left out

- `FileHeader::Deallocate` and `FileSystem::Remove`: the loop nest has no normal exit, so there is no reclamation to state.
- The TLB: its lookup is commented out, and the inverted table is used instead.
- Virtual pages beyond a thread's store and forked address spaces that share a store: the runs of `Paging` have a fixed set of threads with stores of their own and addresses within them.
- System calls and the copying of strings and buffers for them; only the page-fault branch is modelled.
- Cpu.DelaySlotInvisible: one direction only over whole runs, because a run with a hazard may still end alike; the exact condition is per instruction, in `Cpu.HazardIffVisible`, for all arithmetic on the operands read and not for that of the source alone, where `SUBU 3,2,2` gives 0 with any register 2.
- FileSystems.FileSystem.Create: says nothing about the times in the new header; those that `Read` and `Write` record are stated.
- FsTest.Copy: requires that the request, unless it is refused, leaves a consistent disk, by the exact condition of `FileSystems.FileSystem.Create`.
- InterruptEngine.Interrupt.OneTick: reports the yield on return as a flag; the context switch itself is in `Threads`.
- OpenFiles.OpenFile.ReadAt: requires that position plus length of a request inside the file does not overflow an int, which would be undefined in the source; `WriteAt`, `Read`, `Write` and the operations of `FileSystems` do the same, and `FileRuns.Run` answers that such a request is undefined and ends.
- PostOffices.RunKeepsInv: models one receiving machine, with every sender to it and the same number of boxes everywhere; a packet for another machine leaves the model.
- Context-switch assembly, stacks and the host system's files, sockets and consoles: a switch is one step, the disk an array of sectors, the link a queue.
- A second use of a barrier, and a barrier for no threads.
