# Verified model of S2E's hard core

S2E runs a machine in an emulator and symbolically at the same time. This project models the parts of it that keep
that honest, and proves what they promise:

- **Translation.** `Tcg` gives TCG operations a meaning, `LlvmIr` gives one to basic blocks. `TcgTranslator` is the
  one-pass translator with its caches of values and pointers, proved against `Translation`; `Simulation`,
  `OpSimulation` and `TranslationCorrectness` prove that the code it emits does what the operations do.
  `Typing` says which operations it accepts. `Words`, `WordLaws` and `BitLaws` are the arithmetic. `SelectRemoval`, over
  `ControlFlow`, is the pass that turns selects into branches.
- **Slab allocation.** `SlabPages` hands out pages of 256 KB regions; `SlabHeaders`, `CircularLists`, `SlabLists` and
  `SlabBlocks` hand out the blocks of one size; `Slab` routes requests to size classes.
- **Processes.** `ProcessTable` is the table the instances share, `ProcessProtocol` the protocol over it, and
  `LoadBalancing` the splitting of live states between an instance and a forked child.
- **Execution states.** `StateSwitch` (where a state's contents are), `YieldProtocol` (which states can be scheduled),
  `ForkConcretize`, `Merge`, and `JumpList` (the lists of incoming jumps of a translation block).
- **Memory.** `MemoryCache` and `MemoryCachePool` are the object caches; `AddressSpaces`, `Pages`, `SymbolicBytes`,
  `ExecutionMemory` and `ExecutionStates` are the memory of one and of several states, with copy-on-write;
  `MemoryFailures` holds inputs at which it fails. `Mmu` is the emulated load and store through the TLB.

Code that changes state step by step is imperative here too: classes over real links, arrays, maps and bitmaps, each
method with a contract over the abstract value. Sequences of steps by several parties are transition systems.
A locked section is one step.

Conventions. An undefined TCG run is one that reads a temporary before assigning it, assigns a fixed register, mixes
widths, or stores over a global other than by assigning it; the translator makes no promise about such runs. `Translate`
gives nothing where the translator's own assertions fail. Values of expressions are numbers, and `Eval` is their value
under an assignment. A solver is any function that finds a feasible value of a satisfiable query.

## Model

| member | source | states |
|---|---|---|
| `TcgTranslator.Translator.GenerateCode` | src/tcgplugin/tcg-llvm.cpp:1423-1483 | It answers exactly for acceptable operation lists, and then, for any environment, memory and length of run, the emitted blocks finish with the same memory and return value as the operations, whenever the operations have a defined meaning. |
| `Typing.TranslatesIff` | src/tcgplugin/tcg-llvm.cpp:826-1494 | No assertion of the translator fails if and only if every operation has temps in range, operands of the widths it asks for and a target that takes its value, every plain temporary is assigned in its block before it is an operand there and not discarded since, and no label is set twice. |
| `Typing.JudgeStraight` | src/tcgplugin/tcg-llvm.cpp:826-1421 | One operation is translated exactly if it gets what it asks for; and what the caches then know is what the operations say they assign. |
| `Typing.GetValueTypes` | src/tcgplugin/tcg-llvm.cpp:566-589 | A temp can be an operand exactly if it is a global, a local temp or a plain one with a known value; asking for it changes nothing of this. |
| `Typing.SetValueTypes` | src/tcgplugin/tcg-llvm.cpp:591-630 | A temp can be assigned exactly if it is a plain one or has the width of the value. |
| `Typing.DefinedIsAsked` | src/tcgplugin/tcg-llvm.cpp:983-1242 | An operation of the listed widths whose effect is defined asks for nothing but that its operands are given in its block. |
| `Typing.DefinedIsTranslated` | src/tcgplugin/tcg-llvm.cpp:826-1421 | So the translator refuses a defined operation only if it does not know one of its operands. |
| `WordLaws.MulIs` | src/tcgplugin/tcg-llvm.cpp:1185-1219 | Multiplication is that of numbers. |
| `WordLaws.AndIs` | src/tcgplugin/tcg-llvm.cpp:1199-1233 | And, bit by bit. |
| `WordLaws.OrIs` | src/tcgplugin/tcg-llvm.cpp:1199-1233 | Or, bit by bit. |
| `WordLaws.XorIs` | src/tcgplugin/tcg-llvm.cpp:1199-1233 | Exclusive or, bit by bit. |
| `NumberLaws.ShiftUpIs` | src/tcgplugin/tcg-llvm.cpp:1203-1237 | A shift to the left multiplies by a power of two. |
| `WordLaws.ArithmeticShiftIs` | src/tcgplugin/tcg-llvm.cpp:1203-1237 | An arithmetic shift to the right divides the signed value by a power of two and rounds down. |
| `WordLaws.SignedIs` | src/tcgplugin/tcg-llvm.cpp:1019-1030 | The signed value is the one between minus half the range and half the range that the word stands for. |
| `WordLaws.WidenKeeps` | src/tcgplugin/tcg-llvm.cpp:1019-1030 | Extension keeps the number, signed or not. |
| `TranslationCorrectness.TranslationCorrect` | src/tcgplugin/tcg-llvm.cpp:1423-1500 | The same on values: translation preserves meaning, with labels, branches, calls and write-through to memory. |
| `TranslationCorrectness.RunSim` | src/tcgplugin/tcg-llvm.cpp:826-1421 | From any point of a block where the caches match the machine, the rest of the run agrees: the simulation, by induction over the run. |
| `OpSimulation.StepSim` | src/tcgplugin/tcg-llvm.cpp:826-1421 | Every operation that does not transfer control keeps the cache invariant: a cached value is the temp's current value, defined in this block, and memory already holds it. |
| `TranslationCorrectness.ConditionSim` | src/tcgplugin/tcg-llvm.cpp:938-970 | The compare and conditional jump emitted for a conditional branch go the way the condition says. |
| `OpSimulation.CallSim` | src/tcgplugin/tcg-llvm.cpp:851-933 | After a helper that may have changed all of memory, what the caches still hold is right. |
| `OpSimulation.DepositSim` | src/tcgplugin/tcg-llvm.cpp:1305-1337 | The and-shift-or sequence is the bit-by-bit deposit of one field into another, for every offset and length, also where the first mask is left out because the field ends at bit 32. |
| `OpSimulation.Add2Sim` | src/tcgplugin/tcg-llvm.cpp:1373-1398 | One 64-bit addition of joined halves gives the two words of the sum with carry, even if the first result's temp is the second's operand. |
| `OpSimulation.NotIsXor` | src/tcgplugin/tcg-llvm.cpp:1165-1171 | Complement is exclusive or with minus one, at every width. |
| `OpSimulation.NegIsSub` | src/tcgplugin/tcg-llvm.cpp:1165-1171 | Two's complement negation is subtraction from zero, at every width. |
| `TcgTranslator.Translator.GenerateOperation` | src/tcgplugin/tcg-llvm.cpp:826-1421 | The arrays, the insertion point and the emitted code change as the translation relation says, the one proved to keep meaning by `StepSim` and `RunSim`; an operation that stays in its block is refused exactly if it does not get what it asks for. |
| `TcgTranslator.Translator.GetPtrForValue` | src/tcgplugin/tcg-llvm.cpp:494-530 | Caches and emits as the relation says; `GetPtrSim` says that the pointer is the global's address. |
| `Simulation.GetPtrSim` | src/tcgplugin/tcg-llvm.cpp:494-530 | The pointer, cached or computed from the base register's cached value, is the address of the global now. |
| `TcgTranslator.Translator.GetValue` | src/tcgplugin/tcg-llvm.cpp:566-589 | Caches and emits as the relation says, and refuses a plain temp that was never assigned. |
| `Simulation.GetValueSim` | src/tcgplugin/tcg-llvm.cpp:566-589 | The operand has the temp's current value, and everything known before is still known. |
| `TcgTranslator.Translator.SetValue` | src/tcgplugin/tcg-llvm.cpp:591-630 | Caches and emits as the relation says; globals and local temps are written through. |
| `Simulation.SetValueSim` | src/tcgplugin/tcg-llvm.cpp:591-630 | Assigning a temp has the effect of the assignment on memory and variables, and leaves all the caches right. |
| `Simulation.GlobalsAfterStore` | src/tcgplugin/tcg-llvm.cpp:591-630 | A store that touches no other global moves no global and changes no other, so pointers need not be dropped. |
| `Simulation.MatchStored` | src/tcgplugin/tcg-llvm.cpp:591-630 | After a store clear of the globals, or to the one being assigned, cached values are still those of memory. |
| `TcgTranslator.Translator.InitGlobalsAndLocalTemps` | src/tcgplugin/tcg-llvm.cpp:632-672 | Every memory global is resolved to the last global in its base register, fixed registers are numbered in order, and each local temp has its slot. |
| `TcgTranslator.Translator.StartNewBasicBlock` | src/tcgplugin/tcg-llvm.cpp:694-714 | Nothing that a previous block computed stays known, except where local temps are; the block before it is closed. |
| `TcgTranslator.Translator.ForgetMemory` | src/tcgplugin/tcg-llvm.cpp:917-928 | Values that live in memory and addresses of globals are forgotten, plain temporaries are kept. |
| `SelectRemoval.Rewriter.RunOnFunction` | src/s2e/SelectRemovalPass.cpp:75-107 | The pass ends; no select is left; every block is still phis first and one terminator last; the function gives the same results on every input as before; and it reports a change exactly when there was a select. |
| `SelectRemoval.Rewriter.ReplaceSelect` | src/s2e/SelectRemovalPass.cpp:87-102 | One rewrite keeps good form and all results, removes exactly one select, and leaves those after it in the new block. |
| `SelectRemoval.Rewriter.BranchAndMeet` | src/s2e/SelectRemovalPass.cpp:54-73 | The two new blocks, the branch and the phi form a diamond between the halves of the split block. |
| `SelectRemoval.RewriteKeepsResults` | src/s2e/SelectRemovalPass.cpp:54-102 | Removing one select keeps every result in both directions, for runs of any length, with phis of other blocks renamed. |
| `SelectRemoval.Replaced` | src/s2e/SelectRemovalPass.cpp:54-102 | The rewrite of any block at any select makes progress: good form, equivalence, one select less. |
| `SelectRemoval.OneLess` | src/s2e/SelectRemovalPass.cpp:75-102 | The termination measure: the function's selects go down by one, those before and after the select are kept. |
| `Slab.SlabAllocator.Alloc` | src/s2e/Slab.cpp:402-412 | A served request gives a new live block of its class, at least as big as asked for, inside one page and clear of the header; no block of another class changes. It gives nothing exactly when the size has no class, or when the class has no free block, no region a free page and the system answers null. The heap stays well formed if and only if the call does not fault, which it does exactly when the answer then is MAP_FAILED. |
| `Slab.NothingMapped` | src/s2e/Slab.cpp:79-88 | The first request of all faults if the system cannot map a region. |
| `Slab.SlabAllocator.Free` | src/s2e/Slab.cpp:414-425 | Only that block stops being live, in the class that issued it; an address in a foreign page is refused. |
| `Slab.SlabAllocator.GetSlab` | src/s2e/Slab.cpp:364-381 | The signature of a live block's page leads to the class that issued it; a page without a signature leads nowhere. |
| `Slab.SlabAllocator.LiveBlocksApart` | src/s2e/Slab.cpp:305-307 | No two live blocks overlap, whatever their classes. |
| `Slab.SlabAllocator.constructor` | src/s2e/Slab.cpp:342-356 | The heap starts well formed, with no page in use. |
| `Slab.LogIsTightest` | src/s2e/Slab.cpp:383-400 | The class chosen holds the request, and the class below would not. |
| `SlabBlocks.BlockAllocator.Alloc` | src/s2e/Slab.cpp:262-308 | A block not live before becomes live, in a page of this allocator: while one is free, the lowest of the first partly used page, or else of the first totally free one; it gives nothing exactly when no block is free and no page can be had, and faults exactly when the page it would take is MAP_FAILED; the invariant over lists, masks and counters is kept. |
| `SlabBlocks.BlockAllocator.Free` | src/s2e/Slab.cpp:311-340 | Exactly that block stops being live, and its page moves to the list that fits its number of free blocks. |
| `SlabBlocks.BlockAllocator.Expand` | src/s2e/Slab.cpp:228-244 | One more page, totally free, and no block more or less in use; a fault exactly when the page allocator was misled, and then no page and no header more. |
| `SlabBlocks.BlockAllocator.Shrink` | src/s2e/Slab.cpp:246-260 | The last totally free page goes back, if there is one, and no live block is lost. |
| `SlabBlocks.BlockAllocator.constructor` | src/s2e/Slab.cpp:203-226 | The books start empty and sound. |
| `SlabBlocks.AllowedSizes` | src/s2e/Slab.cpp:203-226 | The assertions of the constructor let blocks of 8 to 1024 bytes through, and no others. |
| `SlabBlocks.Locate` | src/s2e/Slab.cpp:311-323 | The address of a live block gives back the page and the bit that issued it. |
| `SlabBlocks.LiveAfterTake` | src/s2e/Slab.cpp:262-308 | Clearing a bit makes its block live, and no other. |
| `SlabBlocks.LiveAfterGive` | src/s2e/Slab.cpp:311-340 | Setting a bit frees its block, and no other. |
| `SlabHeaders.FindFree` | include/s2e/Slab.h:174-193 | In a page with a free block the search ends at the lowest free one, below the number of blocks although the padding bits are set. |
| `SlabHeaders.PartitionKept` | src/s2e/Slab.cpp:284-340 | Whatever a block's change of state does to a page's count, relisting it leaves the three lists a partition by count: all free, some, none. |
| `SlabHeaders.CountedKept` | src/s2e/Slab.cpp:284-340 | And the counters of pages and of blocks remain the sums over the lists. |
| `SlabHeaders.NoFreeBlocks` | src/s2e/Slab.cpp:262-283 | The counter of free blocks is zero exactly when both lists with free blocks are empty, so that the assertion after the expansion cannot fail. |
| `CircularLists.InsertHead` | include/s2e/Slab.h:83-92 | The ring reads the same with the entry in front. |
| `CircularLists.InsertTail` | include/s2e/Slab.h:94-103 | The ring reads the same with the entry at the end. |
| `CircularLists.RemoveEntry` | include/s2e/Slab.h:72-81 | The ring reads the same without that entry, in the same order. |
| `CircularLists.RemoveTail` | include/s2e/Slab.h:105-115 | The last entry comes off. |
| `SlabPages.PageAllocator.AllocPage` | src/s2e/Slab.cpp:100-137 | A page is never given twice; it is the free page with the lowest address, and no region is opened while there is one; none is given exactly when no region has room and the system answers null; a full region moves to the busy ones. All of this holds if and only if the system does not answer MAP_FAILED while no region has room: that is then recorded as a region and given as its page. |
| `SlabPages.PageAllocator.FreePage` | src/s2e/Slab.cpp:139-174 | Only that page stops being live; a region goes back to the system only if none of its 64 pages is. |
| `SlabPages.PageAllocator.BelongsToUs` | src/s2e/Slab.cpp:177-200 | Yes exactly for addresses in a region held. |
| `ProcessProtocol.Safety` | src/s2e/S2E.cpp:621-665 | In every run, the count is occupied slots plus reservations and at most the maximum; a child with a reservation finds a slot; and every instance still owns its slot. |
| `ProcessProtocol.IndicesUnique` | src/s2e/S2E.cpp:627-635 | No instance index is given twice in any run. |
| `ProcessProtocol.Progress` | src/s2e/S2E.cpp:621-637 | In every run, a place can be reserved exactly as long as occupied slots and reservations are fewer than the maximum. |
| `ProcessProtocol.ReservedProgress` | src/s2e/S2E.cpp:643-664 | In every run, whoever has a reservation can give it back or take a slot at once. |
| `ProcessProtocol.StepInv` | src/s2e/S2E.cpp:621-761 | Each of reserve, failed fork, child, exit, death and reaping keeps the invariant, under any interleaving. |
| `ProcessProtocol.SlotAvailable` | src/s2e/S2E.cpp:652-664 | The assertion that a slot was found cannot fail. |
| `ProcessProtocol.OwnsSlot` | src/s2e/S2E.cpp:296-303 | The assertion that an exiting instance owns its slot cannot fail. |
| `ProcessProtocol.ReapEffect` | src/s2e/S2E.cpp:737-761 | Exactly the slots of dead processes become free, and the count goes down by as many. |
| `ProcessProtocol.ReapInv` | src/s2e/S2E.cpp:737-761 | Reaping keeps the invariant, while others hold reservations. |
| `ProcessProtocol.InitialInv` | src/s2e/S2E.cpp:225-231 | The first instance's table satisfies it. |
| `ProcessTable.Shared.constructor` | src/s2e/S2E.cpp:225-231 | All slots free but the first, which is this process's. |
| `ProcessTable.Shared.TryReserve` | src/s2e/S2E.cpp:627-637 | Refused exactly when the count is the maximum, with nothing changed; else a place and the next index. |
| `ProcessTable.Shared.CancelReservation` | src/s2e/S2E.cpp:643-648 | A failed fork gives the place back; the index stays used. |
| `ProcessTable.Shared.ClaimSlot` | src/s2e/S2E.cpp:654-664 | The child takes the first free slot. |
| `ProcessTable.Shared.ReleaseSlot` | src/s2e/S2E.cpp:296-303 | The instance's slot and place are free again. |
| `ProcessTable.Shared.ReapDead` | src/s2e/S2E.cpp:737-761 | The scan does what `ReapEffect` is about. |
| `ProcessTable.Shared.FetchAndIncrementStateId` | src/s2e/S2E.cpp:704-711 | Every caller gets another id. |
| `LoadBalancing.Safety` | src/s2e/S2EExecutor.cpp:1362-1421 | In every run from one instance with one state, as long as no fork came while a state had yielded or had not reached the set, every live state is owned by exactly one instance; and the next step keeps that exactly if it is no such fork. |
| `LoadBalancing.RunPartitioned` | src/s2e/S2EExecutor.cpp:1362-1421 | The same from any partitioned world, over creation, termination, updates, forks, their kills, yields and resumptions. |
| `LoadBalancing.BothSidesKeepOne` | src/s2e/S2EExecutor.cpp:1362-1431 | In every run in which the sets are updated between the kills of a round and the instance's next round, as the timer does, both sides of every split have a state, and each has half of the states. |
| `LoadBalancing.RunClean` | src/s2e/S2EExecutor.cpp:1423-1431 | In such runs an instance without kills since its last update has removed only zombies, which the next round does not divide. |
| `LoadBalancing.SplitInHalf` | src/s2e/S2EExecutor.cpp:1407-1416 | Of n states the one side keeps n / 2 and the other the rest. |
| `LoadBalancing.HalfEach` | src/s2e/S2EExecutor.cpp:1407-1416 | How many states each side gives up. |
| `LoadBalancing.BalanceStep` | src/s2e/S2EExecutor.cpp:1373-1421 | A fork loses no state and duplicates none; each side has exactly its half, without the states removed before. |
| `LoadBalancing.BalanceWhileOutside` | src/s2e/S2EExecutor.cpp:1362-1421 | A fork keeps the partition exactly when no state has yielded and none is still to be added. |
| `LoadBalancing.DuplicatingRun` | src/s2e/S2EExecutor.cpp:1362-1421 | A run after which two instances own one state. |
| `LoadBalancing.RoundIsRun` | src/s2e/S2EExecutor.cpp:1390-1421 | What a round does on both sides of the fork is one fork step and a kill step for each state given up. |
| `LoadBalancing.Halves` | src/s2e/S2EExecutor.cpp:1373-1416 | The two kill ranges are disjoint, together they are all live states, and each leaves one over. |
| `LoadBalancing.Executor.DoLoadBalancing` | src/s2e/S2EExecutor.cpp:1362-1421 | Nothing changes if the table is full, if fewer than two states are live or if the fork fails; otherwise the round of `RoundIsRun`, on the side the fork returned to. |
| `YieldProtocol.Safety` | src/s2e/S2EExecutor.cpp:1615-1657 | In every run from one state: each live state is schedulable or in the yield slot, not both; the assertions on yielding hold; and a selection that finds a state does not pick the one that yielded and makes it schedulable again. |
| `YieldProtocol.StepInv` | src/s2e/S2EExecutor.cpp:2384-2411 | Every fork, termination, update, yield and selection keeps the invariant. |
| `YieldProtocol.SelectAfterYield` | src/s2e/S2EExecutor.cpp:1626-1643 | The selection after a yield. |
| `YieldProtocol.YieldLost` | src/s2e/S2EExecutor.cpp:1626-1637 | A yielding state is lost exactly when it is the only schedulable one: the selection then finds none and gives up before restoring it. |
| `YieldProtocol.LosingRun` | src/s2e/S2EExecutor.cpp:2384-2411 | A run from one state that loses a live state. |
| `YieldProtocol.InitialInv` | src/s2e/S2EExecutor.cpp:1053-1069 | One state, known to the searcher, satisfies the invariant. |
| `YieldProtocol.Executor.SelectNextState` | src/s2e/S2EExecutor.cpp:1626-1643 | Picks what the searcher prefers if it has it, after the update and before the yielded state is back; gives up, with nothing restored, exactly when the searcher is empty. |
| `YieldProtocol.Executor.YieldState` | src/s2e/S2EExecutor.cpp:2384-2411 | A lone state does not yield, and nothing changes; another one leaves all sets for the slot, with its flag up. |
| `YieldProtocol.Executor.RestoreYieldedState` | src/s2e/S2EExecutor.cpp:1615-1624 | The slot empties into the sets, with the flag down. |
| `YieldProtocol.Executor.SuspendState` | src/s2e/S2EExecutor.cpp:2535-2550 | A state of the set leaves it and the searcher. |
| `YieldProtocol.Executor.ResumeState` | src/s2e/S2EExecutor.cpp:2552-2569 | Refused exactly for a state that is in the set. |
| `StateSwitch.Machine.DoStateSwitch` | src/s2e/S2EExecutor.cpp:1451-1557 | No state's contents change, its path condition included, although shared locations are swapped; the new state is the only active one; neither runs concrete. |
| `StateSwitch.Machine.SwitchToConcrete` | src/s2e/S2EExecutor.cpp:1281-1325 | No state's contents change when the registers move to the shared bytes. |
| `StateSwitch.Machine.SwitchToSymbolic` | src/s2e/S2EExecutor.cpp:1328-1348 | Nor when they move back. |
| `StateSwitch.Machine.NotifyBranch` | src/s2e/S2EExecutor.cpp:2253-2283 | The checkpoint makes a state's own copy equal to the shared locations and changes no contents. |
| `StateSwitch.Machine.Fork` | src/s2e/S2EExecutor.cpp:2180-2202 | The child is inactive and has its parent's contents and path condition; nobody else's change. |
| `StateSwitch.Machine.constructor` | src/s2e/S2EExecutor.cpp:1053-1058 | The first state is active and runs concrete. |
| `StateSwitch.Machine.WriteRegisterConcrete` | src/s2e/S2EExecutionState.cpp:1455-1475 | What registers the state then has, and that no other state's change. |
| `StateSwitch.Machine.ReadRegisterConcrete` | src/s2e/S2EExecutionState.cpp:1388-1453 | What is read and what it forces on the object and the path condition; no other state changes. |
| `StateSwitch.Machine.WriteRegisterSymbolic` | src/s2e/S2EExecutionState.cpp:410-419 | Only this state's object changes. |
| `StateSwitch.Machine.AddConstraint` | src/s2e/S2EExecutor.cpp:676-676 | A new constraint changes the path condition of its state and nothing else. |
| `StateSwitch.RegisterWriteTakesEffect` | src/s2e/S2EExecutionState.cpp:1455-1475 | A concrete write changes exactly the registers written, if and only if it does not go to the object of a state that runs concrete, or the shared bytes already had those values. |
| `StateSwitch.ReadAlwaysTakesEffect` | src/s2e/S2EExecutionState.cpp:1388-1453 | Whatever values the solver finds, the registers then have the values read and no other changes, if and only if the read does not go to the object of a state that runs concrete, or the path condition leaves every symbolic byte of the range the shared byte as its only value and the other bytes agree. |
| `StateSwitch.RegisterReadTakesEffect` | src/s2e/S2EExecutionState.cpp:1388-1453 | For one solver: the same, with the bytes it makes the read give. |
| `StateSwitch.SymbolicWriteTakesEffect` | src/s2e/S2EExecutionState.cpp:410-419 | A write to the object takes effect unless it puts a constant there while the shared bytes are the registers and differ. |
| `StateSwitch.Machine.WriteCpuRegister` | src/s2e/S2EExecutionState.cpp:386-408 | What registers the state then has, through the object or the shared bytes; it fails an assertion, with nothing written, exactly for a value that is not constant in a state that runs concrete over concrete registers. |
| `StateSwitch.CpuRegisterWriteTakesEffect` | src/s2e/S2EExecutionState.cpp:386-408 | Exactly the registers written hold the value's bytes, symbolic or not, if and only if it does not go to the object of a state that runs concrete, or the shared bytes are already its constant ones. |
| `StateSwitch.ForcedRangeNarrows` | src/s2e/S2EExecutionState.cpp:1400-1444 | A read adds to the path condition that the symbolic bytes have the values read, and nothing else; a satisfiable one stays so. |
| `StateSwitch.ForcedRangeShape` | src/s2e/S2EExecutionState.cpp:1400-1444 | It makes exactly the bytes of its range concrete. |
| `StateSwitch.SymbolicWhileConcrete` | src/s2e/S2EExecutor.cpp:1281-1325 | A state that runs concrete with a symbolic register can be reached. |
| `StateSwitch.ReadIsLost` | src/s2e/S2EExecutionState.cpp:1388-1453 | In it, a read gives 1 and the register is then 0. |
| `StateSwitch.WriteIsLost` | src/s2e/S2EExecutionState.cpp:1455-1475 | In it, writing 1 leaves the register 0. |
| `StateSwitch.SymbolicWriteIsLost` | src/s2e/S2EExecutionState.cpp:386-419 | In it, writing the constant 1 to the object leaves the register 0, by either function. |
| `ForkConcretize.State.ForkAndConcretize` | src/s2e/S2EExecutor.cpp:620-683 | The target gets a value, and what is left of the path condition is exactly its part in which the expression has that value, whether forking is disabled or not; the other state, if there is one, has exactly the rest; there is none only if forking is disabled or nothing is left for it. |
| `ForkConcretize.State.BindOnce` | src/s2e/S2EExecutor.cpp:620-683 | The same step with whatever a simplifier and a solver give for the current constraints. |
| `ForkConcretize.State.Explore` | src/s2e/S2EExecutor.cpp:620-683 | Executing it again in each state that takes the other branch ends; the states have distinct values, each has exactly the part of the path condition with its value, and together they have all of it; with forking disabled there is only this state. |
| `ForkConcretize.ExactlyOne` | src/s2e/S2EExecutor.cpp:662-675 | An assignment of the original path condition meets that of exactly one outcome. |
| `ForkConcretize.OneOutcomeEach` | src/s2e/S2EExecutor.cpp:662-675 | There are exactly as many outcomes as feasible values, one for each. |
| `ForkConcretize.FewerValues` | src/s2e/S2EExecutor.cpp:662-675 | The other branch rules out one feasible value and no other: what ends the chain. |
| `ForkConcretize.JoinParts` | src/s2e/S2EExecutor.cpp:662-675 | A partition of what remains and the outcome just bound are a partition. |
| `Merge.State.Merge` | src/s2e/S2EExecutionState.cpp:1696-1944 | It succeeds exactly for states at the same point with the same symbolics, stack depth and address map, of which no shared object has a different state, other than those whose value is ignored, the system part and the dirty mask; a refused merge changes nothing; any other is what `MergeFaithful` says, for every assignment. |
| `Merge.MergeFaithful` | src/s2e/S2EExecutionState.cpp:1719-1929 | Over the whole state: the merged constraints admit exactly what either side admits; where the first side holds, all frames, locals and memory are its own; where only the second holds, they are its own exactly if both sides have the same frames and their system parts have equal values; where both hold, exactly if they mean the same. |
| `Merge.MergeKeepsBothSides` | src/s2e/S2EExecutionState.cpp:1840-1909 | Leftover predicates that contradict each other under the common constraints are enough for both sides to keep their meaning, given the same frames and system parts. |
| `Merge.MeansOneSide` | src/s2e/S2EExecutionState.cpp:1840-1909 | Under every assignment the merged state means one whole side, the second exactly if frames and system parts agree. |
| `Merge.MergeKeepsRest` | src/s2e/S2EExecutionState.cpp:1852-1924 | Locals that one side has not set, ignored objects and the system part stay the first side's; a byte of the dirty mask stays set only where both have it. |
| `Merge.MergedConstraints` | src/s2e/S2EExecutionState.cpp:1741-1752 | Common constraints with the disjunction of the leftovers are the disjunction of the two path conditions. |
| `Merge.MergedValue` | src/s2e/S2EExecutionState.cpp:1859-1909 | One select has the first side's value where that holds, and the second's exactly if the first does not hold or the two agree. |
| `Merge.SystemLost` | src/s2e/S2EExecutionState.cpp:1778-1791 | Two states that exclude each other, whose system parts differ: the merge goes ahead and the second is lost. |
| `Merge.FramesLost` | src/s2e/S2EExecutionState.cpp:1719-1739 | The same of two states in different functions. |
| `Merge.BothHold` | src/s2e/S2EExecutionState.cpp:1859-1909 | Two states that hold together and differ in a local: the second is lost. |
| `Merge.State.MergeMutated` | src/s2e/S2EExecutionState.cpp:1840-1924 | The loops over frames, objects, constraints and dirty mask build the merged picture. |
| `Merge.State.FindMutated` | src/s2e/S2EExecutionState.cpp:1808-1838 | It finds the objects whose states differ and stops exactly at a shared one. |
| `JumpList.ResetJump` | src/s2e/S2EExecutor.cpp:1932-1961 | Unlinking removes exactly that jump from its target's list, keeps the order of the rest and every other list, and clears the jump; an unset jump changes nothing. |
| `JumpList.FindTarget` | src/s2e/S2EExecutor.cpp:1939-1948 | Following tags from any jump of a list ends at the block that owns the list. |
| `JumpList.FindLink` | src/s2e/S2EExecutor.cpp:1950-1959 | It ends at the pointer to this jump: the block's own, or that of the jump before. |
| `JumpList.Rewire` | src/s2e/S2EExecutor.cpp:1960-1961 | Two pointers change and no other, whether or not they belong to one block. |
| `MemoryCache.Cache.Put` | include/s2e/MemoryCache.h:104-126 | The entry of one object changes, and of no other, although levels are allocated on the way. |
| `MemoryCache.Cache.Get` | include/s2e/MemoryCache.h:128-146 | Gives the value of the address's object, the default if none was put. |
| `MemoryCache.Cache.GetArray` | include/s2e/MemoryCache.h:148-165 | Entry k of the array is the value of the page's k-th object; no array means that all of them have the default. |
| `MemoryCache.Cache.constructor` | include/s2e/MemoryCache.h:49-84 | Enough first-level slots for every address, all of them empty. |
| `MemoryCache.Cache.FlushCache` | include/s2e/MemoryCache.h:91-98 | Every value is the default again. |
| `MemoryCache.Injective` | include/s2e/MemoryCache.h:106-109 | The three indices determine the object. |
| `MemoryCache.Decompose` | include/s2e/MemoryCache.h:106-109 | The shifts and masks are those of the object's number, and within the tables. |
| `MemoryCache.NthOfPageIsObject` | include/s2e/MemoryCache.h:148-165 | Entry k of a page is the object at page base plus k objects. |
| `MemoryCachePool.Pool.RegisterPool` | include/s2e/MemoryCache.h:206-224 | The range goes before the first smaller one; for a range clear of the others no value changes, and its own are the default. |
| `MemoryCachePool.Pool.Put` | include/s2e/MemoryCache.h:226-234 | The value changes for the addresses of one object of one range, and for no others. |
| `MemoryCachePool.Pool.Get` | include/s2e/MemoryCache.h:245-253 | Gives the current value of any address, the default outside of all ranges. |
| `MemoryCachePool.Pool.CopyOf` | include/s2e/MemoryCache.h:181-186 | A copy has the same ranges and no values. |
| `MemoryCachePool.OrderIrrelevantIff` | include/s2e/MemoryCache.h:206-253 | All orders of registering the same ranges look an address up in the same one, if and only if no two different ranges are both the largest that contain it. |
| `MemoryCachePool.LookupLargest` | include/s2e/MemoryCache.h:206-253 | An address is looked up in a largest range that contains it. |
| `MemoryCachePool.SomeOrderFinds` | include/s2e/MemoryCache.h:206-253 | Every such range is the one that some order finds. |
| `MemoryCachePool.DistinguishedIsEnough` | include/s2e/MemoryCache.h:206-224 | Ranges that are disjoint or differ in size make the order irrelevant to every address. |
| `MemoryCachePool.OverlapsDependOnOrder` | include/s2e/MemoryCache.h:206-224 | For two overlapping ranges of one size the order matters: the first one wins. |
| `ExecutionStates.ExecutionStates.Apply` | src/s2e/S2EExecutionState.cpp:1056-1386 | A state's read, write or transfer has its effect on that state and gives its answer; every other state's memory and constraints stay, with objects shared copy-on-write; every cache entry of every state is what its address space would find. |
| `ExecutionStates.ExecutionStates.Clone` | src/s2e/S2EExecutionState.cpp:301-364 | The clone means what the original means, and cloning changes no state's meaning. |
| `ExecutionMemory.State.Clone` | src/s2e/S2EExecutionState.cpp:301-364 | Both come out ready, with their own CPU objects and dirty mask, coherent caches, and no object state that both may write. |
| `ExecutionMemory.State.AddressSpaceChange` | src/s2e/S2EExecutionState.cpp:213-299 | If only this object's entries were out of date, the caches and CPU pointers agree with the address space again, and what was cached still is. |
| `ExecutionMemory.State.GetWriteable` | src/s2e/S2EExecutionState.cpp:213-299 | A state of its own, the bound one if possible; memory reads the same, and the caches are coherent. |
| `ExecutionMemory.State.FindCached` | src/s2e/S2EExecutionState.cpp:1321-1325 | The object bound to the address, found through the cache or not; filling the slot under any address inside of the object serves all of them. |
| `AddressSpaces.SlotOfBase` | src/s2e/S2EExecutionState.cpp:1966-1970 | An address inside of an object has the object's slot. |
| `ExecutionMemory.State.RegisterRam` | src/s2e/S2EExecutor.cpp:1192-1258 | A new range holds the given bytes, and no other address changes. |
| `ExecutionMemory.State.Initial` | src/s2e/S2EExecutor.cpp:1148-1189 | A state with only its CPU objects and dirty mask is ready and owns what is bound. |
| `ExecutionMemory.State.ReadRamConcrete` | src/s2e/S2EExecutionState.cpp:1312-1351 | The buffer gets the bytes of flat memory at the address, over any number of objects; symbolic ones are made constant in memory with exactly the equalities added to the path condition. |
| `ExecutionMemory.State.WriteRamConcrete` | src/s2e/S2EExecutionState.cpp:1353-1386 | Exactly those bytes of flat memory become the buffer's, over any number of objects. |
| `AddressSpaces.MeaningKept` | src/s2e/S2EExecutionState.cpp:1312-1351 | Concretizing leaves the meaning of every byte for all assignments that satisfy the narrowed constraints. |
| `ExecutionMemory.State.ReadMemory` | src/s2e/S2EExecutionState.cpp:1056-1092 | The little-endian value of the bytes at the address, in whatever objects and pages they lie; nothing exactly if one of them is not mapped. |
| `ExecutionMemory.State.ReadMemory8` | src/s2e/S2EExecutionState.cpp:1094-1106 | The byte, or nothing. |
| `ExecutionMemory.State.WriteMemory` | src/s2e/S2EExecutionState.cpp:1136-1188 | The bytes of the value are written up to the first unmapped one, and success means all; it aborts, with nothing written, exactly for a constant of at most 64 bits that leaves its object or has no supported width. |
| `ExecutionMemory.State.WriteMemory8` | src/s2e/S2EExecutionState.cpp:1190-1207 | That byte and no other. |
| `ExecutionMemory.State.WriteBuffer` | src/s2e/S2EExecutionState.cpp:1209-1241 | Right within one object; aborted, with nothing written, when the first part of a split is no whole number of bytes once taken for bits. |
| `Pages.ReadsBack` | src/s2e/S2EExecutionState.cpp:1056-1188 | Reading back what was written gives its value, across objects and pages. |
| `Pages.HostsDiffer` | src/s2e/S2EExecutionState.cpp:1162-1188 | No two bytes of an access share a host address, even if two pages share a host page. |
| `SymbolicBytes.JoinedParts` | src/s2e/S2EExecutionState.cpp:1056-1092 | Recombining the extracted bytes gives the value. |
| `ExecutionMemory.State.ReadMemoryConcrete8` | src/s2e/S2EExecutionState.cpp:1108-1133 | The byte at the translation asked for is read, with a constraint or without, and its value replaces the byte at the virtual translation of the address; it succeeds exactly if both are mapped, and the constraint stays if only the second is not. |
| `AddressSpaces.ValueKeepsMeaning` | src/s2e/S2EExecutionState.cpp:1108-1133 | Such a read keeps the meaning of all of memory exactly if the value read fits where it is written. |
| `AddressSpaces.ReadKeepsMeaning` | src/s2e/S2EExecutionState.cpp:1108-1133 | Every value the solver may find fits, if and only if the constraints say that the byte written over equals the byte read and, unless a constraint is asked for, that this has a single value. |
| `MemoryFailures.ConstantNotWritten` | src/s2e/S2EExecutionState.cpp:1136-1188 | A mapped two-byte constant that is not written. |
| `MemoryFailures.ExampleChangesMeaning` | src/s2e/S2EExecutionState.cpp:1108-1133 | A byte of unknown value that an example read pins down in an unconstrained state. |
| `MemoryFailures.WrittenElsewhere` | src/s2e/S2EExecutionState.cpp:1130-1130 | A byte read by its host address, with a constraint, that replaces another byte. |
| `MemoryFailures.NotWrittenBack` | src/s2e/S2EExecutionState.cpp:1130-1130 | One whose read fails after its constraint was added. |
| `Pages.HostsPageWise` | src/s2e/S2EExecutionState.cpp:1056-1188 | Any table of host pages maps accesses the way the memory functions rely on: whole objects at a time, keeping offsets. |
| `ExecutionMemory.State.DmaRead` | src/s2e/S2EExecutionState.cpp:1957-1997 | The device gets the bytes of flat memory, whatever the alignment, with the effect of a concrete read. |
| `ExecutionMemory.State.DmaWrite` | src/s2e/S2EExecutionState.cpp:1999-2041 | Exactly those bytes become the device's. |
| `ExecutionMemory.State.WriteCpuRegister` | src/s2e/S2EExecutionState.cpp:386-395 | The path to the object: only the register object of this state changes. |
| `AddressSpaces.OthersUnaltered` | src/s2e/S2EExecutionState.cpp:213-299 | Changes confined to object states one state owns are invisible to any state that does not use those. |
| `Mmu.Machine.Load` | src/s2e/MMUFunctionHandlers.cpp:318-442 | A load of 1, 2, 4 or 8 bytes at any 32-bit address ends with the little-endian value of the translated bytes; an object-crossing zero-extended one has a byte too many. |
| `Mmu.Machine.Store` | src/s2e/MMUFunctionHandlers.cpp:318-442 | Byte k of the value goes to the translation of the k-th address, and no other byte changes, split or not. |
| `Mmu.Machine.LoadedBack` | src/s2e/MMUFunctionHandlers.cpp:318-442 | Memory as a store leaves it gives the stored value to a load. |
| `Mmu.Machine.Lookup` | src/s2e/MMUFunctionHandlers.cpp:318-330 | After at most one refill the entry is the page's. |
| `Mmu.Machine.TlbFill` | src/s2e/MMUFunctionHandlers.cpp:423-426 | The index holds the page of the address, and the TLB stays consistent with the translation. |
| `Mmu.Machine.CombineHalves` | src/s2e/MMUFunctionHandlers.cpp:374-397 | Two aligned loads, shifted and joined, are the bytes in between, also across the top of the address space. |
| `Mmu.AlignedStays` | src/s2e/MMUFunctionHandlers.cpp:350-352 | An aligned access stays in its object, so a split load does not split again. |
| `Mmu.Machine.WideLoadIsRight` | src/s2e/MMUFunctionHandlers.cpp:374-397 | A zero-extended load across objects is right exactly when the byte after it is zero. |
| `Mmu.WideLoad` | src/s2e/MMUFunctionHandlers.cpp:374-397 | Memory in which it is wrong. |
| `Mmu.Machine.constructor` | src/s2e/MMUFunctionHandlers.cpp:318-330 | An empty TLB is consistent with any translation. |

## Findings

Properties that do not hold of the code as it is, each with the exact condition and an input.

- A register access by concrete code, or a write of a constant, takes effect unless the state runs concrete while a byte
  of the range is symbolic: it then goes to the object, but the registers made concrete are looked up in the shared
  bytes (src/s2e/S2EExecutionState.cpp:386-419, 1388-1475). Conditions: `RegisterWriteTakesEffect`,
  `ReadAlwaysTakesEffect`, `SymbolicWriteTakesEffect`, `CpuRegisterWriteTakesEffect`. Inputs: `WriteIsLost`,
  `ReadIsLost`, `SymbolicWriteIsLost`, in the state that `SymbolicWhileConcrete` reaches.
- Load balancing duplicates a state that has yielded when the instance forks: it is not in `states`, so neither side
  gives it up (src/s2e/S2EExecutor.cpp:1362-1421). Condition: `BalanceWhileOutside`, which also asks that no state is
  still to be added; the executor keeps to that by updating its sets after every instruction
  (src/s2e/S2EExecutor.cpp:1750, 1771). Input: `DuplicatingRun`.
- A state that yields while it is the only schedulable one is lost: `states` still has other, terminated ones, so the
  yield goes ahead; the selection finds nothing and returns before restoring it (src/s2e/S2EExecutor.cpp:1626-1643).
  Condition: `YieldLost`. Input: `LosingRun`.
- The page allocator takes MAP_FAILED, the answer of mmap when it cannot map, for a region, because it tests for null
  (src/s2e/Slab.cpp:79-88, 100-113); the block allocator then faults on its header. Condition: the first clauses of
  `AllocPage`, and of `SlabAllocator.Alloc`. Input: `NothingMapped`.
- A zero-extended 16-bit load that crosses an object gives 24 bits: the halves are joined at 32 bits without masking
  (src/s2e/MMUFunctionHandlers.cpp:374-397). Condition: `WideLoadIsRight`. Input: `WideLoad`.
- A constant of at most 64 bits is not written if it leaves its object: the buffer form splits it with numbers of bytes
  for numbers of bits and fails its assertion (src/s2e/S2EExecutionState.cpp:1235-1238). Condition: the `Aborted` clause
  of `WriteMemory`. Input: `ConstantNotWritten`.
- Reading a byte as a concrete value changes memory in two ways (src/s2e/S2EExecutionState.cpp:1108-1133): an example is
  written back without a constraint; and the write takes the address for a virtual one, whatever it was for the read, so
  that it replaces another byte, or fails when the constraint is already added. Condition: `ReadKeepsMeaning`. Inputs:
  `ExampleChangesMeaning`, `WrittenElsewhere`, `NotWrittenBack`.
- The pool depends on the order of registration. Condition: `OrderIrrelevantIff`. Inputs: all those of
  `OverlapsDependOnOrder`.
- Where both sides of a merge hold, the merged state means the first. Condition: `MergeFaithful`; `MergedValue` for one
  value. Input: `BothHold`. Leftover predicates that contradict each other rule it out.
- A merge keeps the first side's system part of the CPU state, and its frames, because the comparison of system parts is
  commented out (src/s2e/S2EExecutionState.cpp:1782-1787) and a difference of frames is only reported
  (src/s2e/S2EExecutionState.cpp:1727-1730). Condition: `MergeFaithful`. Inputs: `SystemLost`, `FramesLost`.

## Left out

- QEMU, KLEE and LLVM themselves, Lua, sockets, streams, plugins, statistics, signals and long jumps: foreign calls.
- The solver and its simplifiers, which are assumptions: a feasible value, an equal expression, a correct answer to
  whether a condition is entailed. Concolic evaluation is not part of this model.
- TCG operations whose code does not have the usual meaning: setcond_i32, movcond_i32, qemu_ld and qemu_st, deposit_i64
  (right for lengths below 32 only) and the rotations (wrong by 0); and division, byte swaps and the tracing of
  instructions, which would add nothing harder.
- Invalidation of the dependents of a fixed-register global, which cannot be reached; assigning one is undefined.
- Runs of translated code and of rewritten functions are compared for every number of blocks entered, so two runs that
  never end are compared through all of their finite beginnings.
- Region lookup by comparison of keys: the model looks for the region that contains the page. The comparison can find a
  region just above the page when the right one is busy (include/s2e/Slab.h:123-127).
- The array of block allocators, one element short (src/s2e/Slab.cpp:351), the use of an erased iterator
  (src/s2e/Slab.cpp:154-155), filling blocks with patterns, and destructors.
- The return value of the scan for dead processes, which a shadowed variable decides (src/s2e/S2E.cpp:740-755), the
  reuse of process numbers by the system, and the spin lock: a locked section is one step.
- The side of a state switch that activates the new state is commented out (src/s2e/S2EExecutor.cpp:1505-1528); it is
  modelled as the mirror of the side that saves. Assertions marked as stubs are not modelled: the live code around them
  is.
- The commented-out test of the symbolic mask, timers, device snapshots and the disk: simple maps.
- readCpuRegister and readCpuRegisterConcrete, which read the object without changing anything, and the setting of
  jumps.
- Merging frames of which the second has fewer locals than the first, which reads beyond its locals; merging on a
  big-endian host; and flushing the emulator's TLB after a merge.
- Slab.SlabAllocator.Free: asks for the address of a block. One inside a block would free it too, but only after the
  fill has run over the block behind it.
- Slab.SlabAllocator.GetSlab: takes no page for one of this allocator because its bytes happen to be a signature: no
  signature is found in memory that the allocator did not format.
- SlabPages.PageAllocator.FreePage: looks for the region that contains the page, not by comparison of keys; see above.
- ExecutionMemory.State.AddressSpaceChange: does not cover objects that are unbound, with a null new state: memory
  objects stay bound from their registration on.
- Merge.MergeFaithful: does not call states different for their dirty masks, hints that can be wrong without harm, for
  objects whose value is marked to be ignored, or for locals that one side has not set; what a merge makes of these is
  the subject of MergeKeepsRest.
- MemoryCachePool's getArray, a dispatch to the one of the range, and printing.
- Big-endian recombination, the copying of shared concrete objects in a transfer, and the map of the S2E TLB.
- I/O pages, tracing of accesses, kernel loads and 64-bit addresses in the MMU: addresses are 32 bits wide. Shift
  amounts there are 32-bit constants beside values of 16 to 64 bits; the model shifts by the number the constant stands
  for, at the width of the value.
- ExecutionMemory.State.WriteBuffer: does not say what a split at a multiple of eight bytes leaves in memory, because
  the parts it then writes are an eighth of those asked for.
- ExecutionMemory.State.ReadMemoryConcrete8: speaks only of satisfiable constraints, because the solver promises
  nothing about others.
