# Verified model of the mist32 simulator

The mist32 simulator runs a 32-bit big-endian guest on a little-endian host. This project models its
memory hierarchy, its execution and interrupt loop and the supporting cores with real arithmetic or
loops, and proves what they keep over every run. Check it with `dafny verify dfyconfig.toml`.

## How the model is built

Each stateful part of the simulator appears twice. A class holds the fields and arrays the C code
updates in place, with the same loops and branches: `MemorySystem.System`, `HostMemory.Vm`,
`Simulator.Processor`, `Fifos.Sci`, `Fifos.Kmc`. A function gives the same operation on values:
`Cache.Read`, `Mmu.VirtToPhys`, `LoadStore.Perform`, `Cpu.Iterate`. Every method of a class is proved to
leave the state its function describes, and the run theorems are about the functions.

- Words are integers from 0 to 2^32 - 1 with wrap-around written out, and bit fields are quotients and
  remainders. `Bits` proves, on recursively defined bit operations, that the C masks are these.
- `Words`, `Cache`, `Mmu`, `LoadStore`: RAM, caches, page walk, TLB and sub-word access on values.
- `TlbRefinement`, `Refinement`, `FlatMemory`, `Coherence`, `DemandPaging`, `Lru`, `LruBound`, `LruExact`,
  `Recency`: what the hierarchy is equal to. `FlatMemory` is the reference: one byte array, most
  significant byte first; `FlatMachine` is the processor over it, `UserFault` a run of both.
- `HostMemory`, `Loader`, `BlockCopy`: the lazy page table, section loading, block copies.
- `Cpu`, `Interrupts`, `Stacks`, `Restart`, `TasRestart`, `RestartWitness`, `PushWitness`, `Provenance`,
  `Flags`, `CompareBranch`, `PushPop`: the loop and its runs.
- `Privilege`, `Isolation`, `FaultReport`, `InterruptGate`, `Iteration`, `AluRun`, `Addressing`,
  `SystemRegisters`: what instructions, walks and interrupts do, told by masks, numbers and bytes alone, and
  what follows for sequences and runs.
- `Fifos`, `IoDecode`: the ring buffers and the I/O address decoder.

## What the code needs

These hypotheses are stated in the contracts; none of them is written down in the sources.

- Full-word stores to RAM are word aligned; `push` checks neither its address nor SPR.
- Page directories and tables are 4 KB aligned and lie in RAM, and the interrupt table lies in one host
  page. A walk or table load that leaves RAM ends the modelled run instead of reading host memory.
- Each page-table entry that one mode can read through serves every mode that may meet it in the TLB: the
  directory of that mode maps the same page and permits as much. `TlbRefinement.TlbRefinesWalkIff` shows
  that the TLB is transparent exactly then, `OneRootIff` what it says of one directory, and
  `AgreeingRootsOk` that directories with the same entries meet it together.
- CMOD is 0 or 3 where the stack-survival and restart theorems need it.
- GCI node sizes are unchanged since start-up and end within the 32-bit address space.

## Where the code does less than it seems to promise

- `memory_vm_memcpy` copies exactly n guest bytes only for even n (`BlockCopy.CopiesExactlyIff`).
- `push` and `pushpc` are not restartable after a fault: SPR stays lowered and the store goes four too low
  (`Restart.RestartedPushTooLow`, `PushWitness.PushMisplaced`).
- `tas` is restartable unless its destination is its base register and held something other than zero
  (`TasRestart.TasReplaysIff`).
- A fetch fault is precise except on a conditional branch that would have completed, where the simulator
  exits on return (`Restart.PreciseRestart`, `RestartWitness.BranchLost`), and on `ib`, which then returns
  to itself (`Restart.RestartedReturnLoops`). A fault inside a handler loses the outer return context
  (`Restart.HandledFault`).
- Entering the kernel flushes nothing, so an entry of the user's directory may answer the kernel's accesses
  where the kernel's directory maps something else or nothing (`TlbRefinement.UserEntrySurvives`);
  `TlbRefinesWalkIff` is the exact condition under which that makes no difference.
- The first iteration overwrites the initial KSPR (`Stacks.DefaultStackSurvivesIff`).
- LRU order needs ages below 2^32 (`LruBound.WrappedAgeSurvives`); exactly when the set still holds its last
  four lines throughout a run is `LruExact.LastFourIff`.
- The copy loop of the loader rounds the address up to a page after each data chunk
  (`Loader.NextAddressContiguous`).
- A configuration write with both clear bits set clears nothing (`Fifos.Sci.CfgWrite`).

## Model

| member | source | states |
|---|---|---|
| Refinement.EndToEnd | load_store.h:20-126 | from reset, any sequence of fetches, loads and stores of 8, 16 and 32 bits and of TLB flushes, direct or paged, in any mix of modes and through any aliases, gets the same replies (values, faults, device accesses) as a flat big-endian byte array seen at every moment through the page tables this byte array itself holds. User mode walks one directory and the other modes another, and the mode may change at any access without a flush. The guest may write its tables with full-word stores, map pages without a flush, turn paging on and off and change directories at a flush. The conditions speak of the byte array alone: between flushes paged requests walk the directory of their mode and stay out of 4 MB regions whose valid entries were overwritten, other accesses than full-word stores avoid words walks may have updated, and the two directories together satisfy the condition that TlbRefinesWalkIff shows exact |
| FlatMachine.ProgramSeesFlatMemory | simulator.c:136-247 | the same for the processor: from reset and for any RAM image, every iteration of the loop leaves the registers that a processor over the flat byte array would have, whatever loads, stores, interrupts, faults, returns, mode switches and table changes the run contains, under the conditions of EndToEnd; so a paged user program is interrupted into a kernel with its own directory, and returned to, without a flush |
| UserFault.UserFaultHandled | simulator.c:136-241 | an instance through caches, TLB and walks: a paged user program faults, the kernel enters on its own directory, stores the missing second-level entry and returns, and the program goes on, with no flush |
| UserFault.FlatRunExpected | simulator.c:136-241 | that run meets the conditions: paging, a fault entry and two different directories that share a second-level table |
| UserFault.DirectoriesOk | memory.c:112-193 | these two directories satisfy the exact condition of TlbRefinesWalkIff, before and after the page is mapped |
| FlatMachine.IterateSame | simulator.c:136-241 | one iteration from any related state keeps processor and byte array in step, also one that starts or ends in another mode than the one before |
| DemandPaging.MapsOnDemand | memory.c:112-193 | an instance: a fetch faults, a store maps the page, and the same fetch reads it, through caches, TLB and walks and without a flush |
| Refinement.WriteKeepsTlb | tlb.h:31-79 | a store to any word leaves every TLB entry right, whichever mode made it, that was made for another region, and all of them if the word was no valid entry: why mapping a page needs no flush |
| Refinement.PerformRelated | load_store.h:20-126 | the same for one request of any mode from any related state (caches, RAM and byte array agree up to R and D bits in walked words; outside edited regions each TLB entry is one that the tables of some mode hold) |
| Refinement.FlushRelated | tlb.h:20-29 | after a flush any usable pair of directories may be used next, and nothing counts as edited |
| Refinement.TranslateOffset | load_store.h:78-101 | translation keeps the low 12 bits of the address, and the aligned word of an address translates with it: why a store may take its word from the physical and its lane from the virtual address |
| TlbRefinement.TlbRefinesWalkIff | tlb.h:31-79 | from a flushed TLB, every run of translations that mixes the modes, user mode walking one directory and the others another, returns what bare walks return, if and only if each entry some mode can read through serves every mode: wherever it is used and permits an access, the tables of that mode map the address to the same page and permit the access |
| TlbRefinement.UnservedDiffers | tlb.h:31-79 | an entry that fails to serve some mode gives two requests of which the second is answered wrongly |
| TlbRefinement.OneRootIff | tlb.h:31-79 | where both modes walk one directory that condition is: each first-level entry permits whatever its leaves permit, and every leaf with PE set lies in a region mapped linearly with at least its permissions |
| TlbRefinement.AgreeingRootsOk | tlb.h:31-79 | two directories with the same first-level entries, up to R and D, satisfy it as soon as one of them does alone |
| TlbRefinement.UserEntrySurvives | interrupt.c:51-52 | a concrete pair of directories: after a user read the kernel reads an address through the entry of the user, where its own directory maps nothing and its walk would fault |
| TlbRefinement.HitAgrees | tlb.h:31-79 | under that condition a hit, by whichever mode the entry was made, is exactly the address the walk of the present mode would give, with no hidden fault |
| TlbRefinement.StepRefines | mmu.h:69-96 | one translation through the TLB gives the result of the walk, also when the address equals the miss value, and leaves the tables of both modes meaning the same |
| TlbRefinement.BadLeafDiffers | tlb.h:57-72 | with one directory, any leaf breaking the condition yields two requests of which the second is answered wrongly |
| TlbRefinement.FirstLevelPrivilegeLost | memory.c:142-188 | a concrete table whose kernel-only first-level privilege is lost through the TLB |
| TlbRefinement.LeafTakenForLargePage | tlb.h:57-63 | a concrete leaf with PE set that makes an unmapped page translate |
| Mmu.WriteBackKeepsMeaning | memory.c:112-193 | setting R and D changes no translation, privilege result or fault of any address, access and mode, even for overlapping or self-mapping tables, and repeating the walk changes nothing more |
| Mmu.SameTablesSameWalk | memory.c:112-193 | tables equal up to R and D give equal walks from the same slot |
| Privilege.PermitsIff | mmu.h:33-61 | by the masks of PP, EX and CMOD: in kernel mode everything is granted but writing an RDXX page, outside it exactly RWRW, and RWRD for reading; executing needs EX in every mode |
| Privilege.WalkInMasks | memory.c:112-193 | for every root, address, mode and access the walk is that of the mask expressions: root by CMOD, both indices by shift, vectors 40 and 41 at both levels, frame OR offset, and R and D written back |
| Isolation.UserRunConfined | mmu.h:33-61 | over any run of user fetches, loads and stores of every width, no byte changes outside the pages that are mapped RWRW at both levels, provided no page-table word lies in such a page |
| Isolation.KernelWordSurvives | mmu.h:33-96 | the same on the simulator, with caches and TLB: after such a run from reset the kernel loads from any other page the word that was there |
| Isolation.RefusedAccess | mmu.h:33-61 | a store, load or fetch that the bits of either level refuse raises vector 41 and changes no byte |
| Cache.DropComplete | cache.h:137-143 | under the invariant that no valid way repeats the tag of a lower way, the invalidation loop that ignores `valid` and stops at the first match leaves no valid line with the tag |
| Cache.ReadCoherent | cache.h:36-118 | a read returns the RAM word (up to R and D bits a walk set, exactly if no walk touched it) and keeps coherence and tag distinctness |
| Cache.WriteCoherent | cache.h:136-172 | a write keeps both caches coherent with the updated RAM and leaves no stale copy of the stored word, even if walks had updated it |
| Cache.WalkCoherent | memory.c:182-183 | a walk that sets R and D behind the caches keeps the weaker coherence, with that word added to the exceptions |
| Coherence.ReachableCoherent | cache.h:36-173 | in every state reachable from reset, each valid cached word is the RAM word except for missing R and D bits of words walks updated, and a tag matches at most one valid way |
| Coherence.CachedWord | cache.h:36-173 | the same spelled out for one cached word: equal outside 0x6 with a subset of its bits, equal exactly if no walk updated it, and no second valid way with the tag |
| Coherence.StoreInvalidates | cache.h:137-143 | after a store in any reachable state no valid instruction line holds the stored address |
| Lru.HoldsLastFour | cache.h:70-108 | after any run from reset, a data set holds exactly the last four distinct lines among its reads and write misses (a write hit does not count), if no line is 2^32 ticks old at an eviction |
| Lru.VictimIsOldest | cache.h:92-104 | a full set evicts the truly least recently used way if and only if that way is the first of the greatest age modulo 2^32 |
| Recency.DistinctOrder | cache.h:70-108 | the reference: of two lines of a history the one listed first was used later |
| LruExact.LastFourIff | cache.h:92-108 | from reset, a data set holds exactly its last four lines after every access of a run, if and only if at each eviction the line really used longest ago is the first of the greatest age modulo 2^32 |
| LruBound.HistoryHoldsLastFour | cache.h:70-108 | the same under a bound said of the access history alone: no line of the last four is 2^32 accesses old when a further one is used |
| LruBound.ShortRunAges | cache.h:99-103 | every run of at most 2^32 accesses meets that bound |
| LruBound.WrappedAgeSurvives | cache.h:92-108 | the bound is needed: from reset, four lines, a pause that brings the tick counter back to zero and a fifth line leave the oldest line in the set |
| Interrupts.ResolveChain | interrupt.c:24-43 | vector resolution ends within three frames at the first valid of num, 43, 63, and fails only if none is |
| Interrupts.DispatchOnce | simulator.c:69-94 | one dispatch saves the context at most once, of the interrupted program, and then changes only PSR, PC and the saved registers |
| Interrupts.KernelEntryFields | interrupt.c:51-52 | entry clears IM and CMOD and keeps every other PSR field |
| Interrupts.InterruptTransparent | interrupt.c:24-80 | interrupt, any handler that leaves the saved registers alone, then `ib`: PC, PSR, PDTR, TIDR, FLAGR and flag validity return; an interrupt taken at that `ib` saves the identical context |
| InterruptGate.IterationEnters | simulator.c:69-94 | every iteration ends in exactly one handler or none: of a pending non-maskable interrupt the first valid of its vector, 43 and 63; else the first of 36, 5 and 37 whose device asks, with bits 0 and 1 of its table entry set and bit 2 of PSR set; with PC at the handler, the context saved and PSR masked by 0xffffff9b |
| InterruptGate.ClosedSourceUnheard | simulator.c:77-93 | a source that is masked or not enabled at every check of a run is not heard: whatever its device asks for and when, the run is the same |
| InterruptGate.SoftwareRaised | instructions.h:905-917 | `swi n` ends in the handler of n, or of 43 or 63 if that is not valid, and returns behind itself |
| InterruptGate.SoftwareEnds | instructions.h:909-914 | `swi` below 64 ends the simulation (the model also ends above 127, where C leaves the table) |
| InterruptGate.TestsuiteExits | interrupt.c:84-90 | in test-suite mode `swi 64` ends the run and raises nothing |
| InterruptGate.DivisionRaised | instructions.h:85-89 | a division by zero ends in the handler of 40, changes no general register and returns behind itself |
| InterruptGate.FaultRaised | simulator.c:172-180 | a memory fault ends in the handler of its vector and returns to the instruction itself |
| SystemRegisters.ContextStarts | instructions.h:811-866 | a kernel that writes PPSR, PPCR, PPDTR, PTIDR, PFLAGR and USPR in any order and number and then executes `ib` starts just that context: PSR, PC, directory, task, flags and stack pointer are the values written last |
| SystemRegisters.WriteReads | instructions.h:648-866 | each system register reads back what was written (interrupt enable and MMU mode their field; USPR only in kernel mode, being overwritten by SPR in the others), and no write changes what a register that shares no bits with it reads |
| SystemRegisters.PsrAfter | instructions.h:784-809 | `srieiw` and `srmmuw` change only their field of PSR, by the masks |
| SystemRegisters.WriteEndsIff | instructions.h:816-861 | a write ends the simulation exactly for a PPCR that is no multiple of 4 and for a paging PSR without 4 KB pages |
| SystemRegisters.WriteFlushes | instructions.h:766-861 | every TLB entry becomes invalid exactly on a write of PDTR, KPDTR or the MMU mode and on a PSR with another MMU mode or CMOD; other writes keep the TLB, and all keep RAM and caches |
| SystemRegisters.ReturnFlushes | interrupt.c:60-65 | `ib` likewise, exactly for another PDTR or MMU mode |
| SystemRegisters.ReturnEndsIff | interrupt.c:60-75 | `ib` ends the simulation exactly for a paging PSR without 4 KB pages and a misaligned PC |
| SystemRegisters.StackMoves | instructions.h:868-871 | `srspadd` moves SPR by its number of words, upwards for positive ones |
| Addressing.TableLoaded | interrupt.c:109-114 | `idts` takes entry n from the eight bytes at IDTR + 8n, flags first |
| Iteration.FirstInstruction | simulator.c:110-154 | the first instruction of a run is the RAM word at the entry address |
| Stacks.IterationBanks | simulator.c:136-193 | every iteration ends with SPR equal to the bank of its mode; a user iteration keeps KSPR; a kernel iteration changes USPR only by `sruspw` |
| Stacks.StackSurvives | simulator.c:137-141 | over any stretch in the other mode a program finds SPR where it left it |
| Stacks.FirstIterationLosesKspr | simulator.c:137-193 | the first iteration replaces the initial KSPR by the SPR its instruction leaves, whatever it executes; by the uninitialised SPR unless the instruction assigns SPR |
| Stacks.DefaultStackSurvivesIff | simulator.c:120 | `STACK_DEFAULT` is in KSPR after the first iteration if and only if its instruction itself writes that value to SPR |
| Stacks.ResetStacks | simulator.c:110-127 | `exec` starts every program in the state those two results are about |
| Restart.FaultChangesNothing | simulator.c:172-179 | a faulting load, store or `pop` leaves registers (but FI0R, FI1R), RAM, caches and TLB as they were |
| Restart.FaultingCycle | simulator.c:153-193 | the faulting iteration ends at the same PC, with only what the instruction has assigned, the fault registers and the pending interrupt changed |
| Restart.HandledFault | simulator.c:172-241 | after fault, delivery, a handler that restores what it changed, and `ib`, the processor is what the faulting instruction left, up to FI0R, FI1R, the saved context (which is now that of the faulting instruction: an outer one is lost) and the last flags (which count as stale) |
| Restart.PreciseRestart | simulator.c:136-241 | if the faulting iteration had assigned nothing (a fetch fault, or a faulting load, store or `pop`), the iteration after the handler agrees with the fault-free one in the memory the handler left, up to saved context, FI0R, FI1R and last flags, if and only if that is not a conditional branch that completes; for every instruction but `ib` and reads of those registers |
| Restart.RestartableDoesNothing | simulator.c:153-180 | a fetch fault, and a fault of a load, store or `pop`, has assigned nothing |
| FaultReport.FaultRegisters | memory.c:195-211 | after any faulting iteration FI0R is the address of the access (PC for a fetch, the containing word for `ld8` and `ld16`, the lowered SPR for a push, base plus displacement otherwise) and FI1R is 0 for vector 40 and kept for 41; every other iteration keeps both |
| FaultReport.FaultExplained | memory.c:112-211 | with caches and TLB, the tables in the byte memory give for the address in FI0R, and the kind of access made, just the vector raised |
| RestartWitness.BranchLost | simulator.c:238-242 | a concrete run: a fetch fault on a conditional branch, a handler that only maps the page, and a simulator that exits where the branch would have been taken |
| RestartWitness.BranchLostExists | simulator.c:110-127 | a machine to start that run from exists |
| Restart.RestartedBranchStops | simulator.c:238-242 | a conditional branch found after a handled fault always ends the simulation, its flags counting as stale |
| Restart.RestartedReturnLoops | interrupt.c:60-71 | a handled fetch fault on `ib` makes the restarted `ib` return to itself; it agrees with the fault-free one if and only if the context to restore was already the present one |
| Restart.PushFaultLowersSp | instructions.h:566-589 | a `push` or `pushpc` lowers SPR whether or not its store faults |
| RestartWitness.PushFaults | instructions.h:566-579 | a faulting `push` exists |
| Restart.RestartedPushTooLow | simulator.c:172-241 | so the push executed again after a handled fault, if it completes, stores the same value four below the address the fault-free one stores to, and ends with SPR four lower |
| PushWitness.PushMisplaced | simulator.c:172-241 | a concrete run: a push faults, the handler maps the stack and returns, and the push ends at 0x400000 instead of 0x400004 |
| TasRestart.TasFaultLoads | instructions.h:919-953 | a `tas` whose store faults has loaded the zero into its destination and assigned nothing else |
| TasRestart.TasReplaysIff | instructions.h:919-953 | executed again it does what it would have done before, in every memory the handler may leave, if and only if its base register is not its destination, or held zero |
| TasRestart.RestartedTas | simulator.c:172-241 | such a `tas` is restartable over fault, handler and `ib` |
| TasRestart.TasLosesItsBase | instructions.h:924-939 | a concrete `tas` that loses its address to the fault |
| PushPop.PushThenPop | instructions.h:566-606 | `pop` after `push` gives back the pushed word and the old SPR and touches no other register, from any state of caches and TLB the end-to-end relation allows |
| PushPop.StoreThenLoad | load_store.h:20-76 | a word stored through the hierarchy is loaded back at the same virtual address |
| Addressing.LoadReads | instructions.h:415-488 | a completed load gives its register the big-endian number of 1, 2 or 4 bytes at base plus displacement times size, or immediate times size, modulo 2^32, and changes nothing else |
| Addressing.StoreWrites | instructions.h:490-564 | a completed store gives the bytes at that address the low bytes of its register, and changes no other byte |
| Addressing.EffectiveIs | instructions.h:415-564 | that address exists exactly if the base is a multiple of the size |
| Addressing.MisalignedEnds | instructions.h:434-564 | any other base ends the simulation |
| Addressing.StoreThenLoad | instructions.h:415-564 | what one store left in a cell a load of the cell returns, through whichever operands |
| Addressing.DisplacementsApart | instructions.h:415-564 | two displacements from one base lie as many operand sizes apart as they differ |
| Addressing.OtherCellsKept | instructions.h:415-564 | so a store through one displacement leaves the cells of all others |
| Addressing.LoadDelivers | instructions.h:415-488 | the load on the simulator, through caches, TLB and walks |
| Addressing.StoreDelivers | instructions.h:490-564 | and the store |
| Addressing.DeviceRead | load_store.h:36-58 | of a word read from a device, a load takes the bytes at its address, most significant first |
| Addressing.PushWrites | instructions.h:566-589 | `push` and `pushpc` store operand or PC at SPR - 4, and nowhere else, and leave SPR there |
| Addressing.PopReads | instructions.h:591-606 | `pop` loads the word at SPR and raises SPR by 4 |
| Addressing.TasSwaps | instructions.h:919-953 | `tas` returns the word at its operand and stores 1 if and only if that was 0 |
| Addressing.TasExcludes | instructions.h:919-953 | so of any two `tas` of a word without a store between them at most the first finds it free |
| Provenance.TlbProvenance | tlb.h:20-29 | after any run from a flushed TLB, each valid entry was made by a translation of that run, sits at its own index, and was walked from the current PDTR or KPDTR under the current MMU mode |
| Provenance.IterationExplained | instructions.h:766-861 | one iteration, with whatever register write, entry or return it holds, keeps that |
| Bits.FlagMasks | registers.h:27-38 | the bits of FLAGR as a word |
| Flags.CompareDecides | flags.h:29-41 | after `cmp a,b` each of the sixteen conditions decides the relation it names, for all operands, though carry comes from adding the negated source |
| CompareBranch.CompareThenBranch | operands.h:116-179 | `cmp` and a branch as two loop iterations: the branch is taken exactly when the operands stand in that relation |
| CompareBranch.BranchExactly | instructions.h:608-641 | when a branch ends the simulation, when it is taken and where it goes, for every condition number, flag state and target; a target of 0xffffffff counts as no branch |
| AluRun.AddLeaves | instructions.h:22-30 | an executed `add` leaves the sum, carry and overflow exactly, and every other register |
| AluRun.SubLeaves | instructions.h:32-40 | `sub` leaves a result that with the source makes the destination, up to a borrow, and flags by which every condition decides its relation |
| AluRun.CmpLeaves | instructions.h:115-122 | `cmp` leaves those flags and no other change |
| AluRun.AddcLeaves | instructions.h:169-178 | `addc` leaves the carry of the sum, with the flags of the sum |
| AluRun.MulLeaves | instructions.h:42-77 | `mull`, `mulh` and `umulh` leave the low, the signed high and the unsigned high word of the product |
| AluRun.DivisionLeaves | instructions.h:79-158 | a division divides destination by source, in this order |
| AluRun.LongAddition | instructions.h:22-178 | a sequence of `add` and `addc` instructions, executed once per word by the loop with the carry handed on, leaves the n-word sum modulo 2^(32n) and its quotient as the carry, for every n |
| AluRun.LongProduct | instructions.h:42-77 | `mull` and `mulh`, or `mull` and `umulh`, executed by the loop on copies of a word leave the whole product |
| Flags.AddFlags | flags.h:17-26 | after `add`, carry is unsigned and overflow signed overflow |
| Flags.AddWordsExact | instructions.h:169-178 | `add` and `addc` compose to exact n-word addition with carry, for every n |
| Flags.AddWordsModulo | instructions.h:22-30 | so the words are the sum modulo 2^(32n) and the carry its quotient |
| Flags.UnsignedProduct | instructions.h:66-77 | `umulh` and `mull` are the exact unsigned 64-bit product |
| Flags.SignedProduct | instructions.h:42-64 | `mulh` and `mull` are the exact signed 64-bit product |
| Loader.LoadedSection | main.c:219-241 | after the copy loop and the conversion, a load of 8, 16 or 32 bits anywhere in the section returns the file's bytes in big-endian order |
| Loader.LoadChunk | main.c:219-235 | the page-split copy loop ends, writes exactly the chunk at consecutive addresses and no other byte, and leaves the address at the next page boundary |
| Loader.NextAddressContiguous | main.c:219 | a second chunk would follow the first only if that ends on a page boundary |
| Loader.CopyIntoPage | main.c:226-234 | the copy into one host page places the bytes in the page of that address only |
| Loader.ConvertPage | memory.c:264-275 | one page is byte-swapped word by word |
| Loader.ConvertEndian | memory.c:277-286 | swapping the allocated pages swaps every word of RAM |
| Loader.ConvertedByte | memory.c:264-286 | after conversion the guest's byte at an address is the host byte written there |
| Fifos.SciConserves | dps.c:333-433 | over any run of receptions, reads and configurations, each byte taken from the socket is read in order, cleared, or still queued, and at most 16 are queued |
| Fifos.KmcKeepsNewest | monitor.c:189-207 | however many scancodes arrive, the newest 127 remain in order |
| Fifos.KmcConserves | gci.c:158-177 | over any run each scancode leaves in arrival order, read or dropped, or is still queued |
| Fifos.SciMasks | dps.c:333-388 | in the masks of dps.h: REN lets bytes in and out, RCLR without TCLR empties the queue, both bits are dropped, and a read takes the oldest byte |
| Fifos.Sci.Recv | dps.c:390-433 | appends exactly as many of the available bytes as fit |
| Fifos.Sci.RxdRead | dps.c:333-362 | hands out the oldest byte with the valid bit, or zero, and refines the queue step |
| Fifos.Sci.CfgWrite | dps.c:377-388 | clears the queue only for RCLR without TCLR, and drops both bits |
| Fifos.Kmc.Push | monitor.c:189-207 | the ring with its overflow step is the 127-element queue that drops its oldest element |
| Fifos.Kmc.Read | gci.c:158-177 | hands out the oldest scancode with the valid bit, or zero |
| Fifos.RaisedIff | gci.c:179-188 | over any run of scancode batches, checks and acknowledgements, a check raises the interrupt if and only if scancodes have arrived since it was last raised and every earlier one has been acknowledged |
| Fifos.RaisedApart | io.c:107-111 | so between two interrupts lie an acknowledgement and a new batch |
| Fifos.Kmc.Interrupt | gci.c:179-188 | the flags make the step of that run |
| Fifos.Kmc.Acknowledge | io.c:107-111 | likewise for the read of the interrupt factor |
| IoDecode.DecodeBijection | io.c:27-74 | for any node sizes of at least 0x400 the decoder is a bijection between the offsets of the I/O space and the cells of its regions, never null |
| IoDecode.IoSpaceExact | io.c:27-74 | with the initial sizes every address from IOSR up decodes in bounds, and distinct addresses to distinct cells |
| IoDecode.IoAddrGet | io.c:27-74 | the cumulative scan finds the cell of the reference map |
| IoDecode.IoLoad | io.c:76-136 | its own scan triggers the effect of the same cell |
| IoDecode.IoStore | io.c:138-194 | its own scan triggers the effect of the same cell |
| IoDecode.GciInit | gci.c:29-117 | the sizes at start-up meet the condition of the decoder, and IOSR is the top of memory less their sum, 0xffec6bbc |
| IoDecode.IoLoadMap | io.c:76-136 | at the initial sizes, the device and offset that a load of each of the 0x139444 bytes reaches |
| IoDecode.IoStoreMap | io.c:138-194 | and a store |
| BlockCopy.CopiesExactlyIff | memory.c:232-243 | the first n guest bytes and no others are copied, if and only if n is even |
| BlockCopy.Memcpy | memory.c:232-243 | the word copy and the `i ^ 2` tail move exactly the host bytes the predicate names and leave all others |
| BlockCopy.GuestMemcpy | memory.c:232-243 | for even n, in the guest's order of bytes, the destination's first n bytes are the source's and no other byte changes |
| Bits.CacheMasks | cache.h:15-18 | the tag, index and word masks are the quotients and remainders used here |
| Bits.PteMasks | mmu.h:18-27 | likewise the PTE flag tests |
| Bits.AddressMasks | memory.c:157-192 | frame OR offset is frame plus offset, for both page sizes |
| Bits.SetRDMasks | memory.c:182-183 | OR-ing R and D adds the missing bits |
| Bits.TlbMasks | tlb.h:31-79 | the XOR tests compare page numbers |
| Bits.PsrMasks | registers.h:13-24 | the PSR field masks |
| Bits.OverflowMasks | flags.h:17-41 | the overflow expressions are the sign comparisons |
| HostMemory.AllocInvisible | vm.h:33-51 | allocating a page on first use is invisible to the guest, because new pages are zero |
| HostMemory.StoreInPage | vm.h:33-51 | a word of a page is one RAM word and no other |
| HostMemory.Vm.PhysToVm | vm.h:33-51 | finds or allocates the page and leaves RAM as the guest sees it |
| HostMemory.Vm.ReadWord | vm.h:33-51 | reads the RAM word of the address |
| HostMemory.Vm.WriteWord | vm.h:33-51 | changes that RAM word only |
| MemorySystem.System.constructor | memory.c:34-61 | starts with zero RAM, no valid line, no valid TLB entry |
| MemorySystem.System.CacheRead | cache.h:51-118 | hit, victim search, refill and tick on the arrays are the specified read, the other cache and the TLB untouched |
| MemorySystem.System.FindVictim | cache.h:92-104 | the search finds the specified victim |
| MemorySystem.System.Invalidate | cache.h:137-143 | the loop clears exactly the first way with the tag |
| MemorySystem.System.CacheWrite | cache.h:136-172 | write-through, I-line invalidation and write-allocate together are the specified write |
| MemorySystem.System.FlushTlb | tlb.h:20-29 | every entry becomes invalid, page numbers stay |
| MemorySystem.System.PageWalk | memory.c:112-193 | result, R and D write-back, TLB fill and fault registers are those of the specified walk, which WalkInMasks gives by the masks and FaultRegisters by the address |
| MemorySystem.System.LookupTlb | tlb.h:31-79 | the lookup changes nothing and returns the specified address or the miss value, granting what PermitsIff says |
| MemorySystem.System.VirtualToPhysical | mmu.h:69-96 | the whole translation with its effects on RAM, TLB and fault registers |
| MemorySystem.System.Ld32 | load_store.h:20-34 | reply, memory hierarchy and fault registers are those of the access that EndToEnd is about |
| MemorySystem.System.Ld16 | load_store.h:36-46 | reply, memory hierarchy and fault registers are those of the access that EndToEnd is about |
| MemorySystem.System.Ld8 | load_store.h:48-58 | reply, memory hierarchy and fault registers are those of the access that EndToEnd is about |
| MemorySystem.System.FetchInstruction | fetch.h:20-33 | reply, memory hierarchy and fault registers are those of the access that EndToEnd is about |
| MemorySystem.System.St32 | load_store.h:61-76 | reply, memory hierarchy and fault registers are those of the access that EndToEnd is about |
| MemorySystem.System.St16 | load_store.h:78-101 | reply, memory hierarchy and fault registers are those of the access that EndToEnd is about |
| MemorySystem.System.St8 | load_store.h:103-126 | reply, memory hierarchy and fault registers are those of the access that EndToEnd is about |
| Simulator.Processor.constructor | simulator.c:110-127 | the registers `exec` starts with, over an initial memory |
| Simulator.Processor.InterruptEntry | interrupt.c:24-58 | the recursive entry refines the resolved entry that DispatchOnce is about |
| Simulator.Processor.InterruptExit | interrupt.c:60-80 | restores the saved context, flushing the TLB for a changed PDTR or MMU mode only |
| Simulator.Processor.DispatchNonmask | interrupt.c:82-107 | leaves the vector, or 43 for an invalid one, pending; in test-suite mode the first software interrupt ends the run instead |
| Simulator.Processor.IdtStore | interrupt.c:109-114 | caches the 128 table entries at IDTR and leaves RAM as it was |
| Simulator.Processor.InterruptDispatcher | simulator.c:69-94 | refines the dispatch on values, whose every outcome IterationEnters gives by raw table words |
| Simulator.Processor.LoadRegister | instructions.h:415-488 | the register is loaded only if no fault is raised, and with what LoadReads says |
| Simulator.Processor.StoreValue | instructions.h:490-564 | memory changes only if no fault is raised, and as StoreWrites says |
| Simulator.Processor.PushValue | instructions.h:566-589 | SPR is lowered first, whatever the store does |
| Simulator.Processor.PopRegister | instructions.h:591-606 | SPR is raised only after a load without fault |
| Simulator.Processor.TestAndSet | instructions.h:919-953 | the store follows only a load of zero without fault |
| Simulator.Processor.Arithmetic | instructions.h:22-178 | results and flags of the arithmetic that AluRun gives by what they mean |
| Simulator.Processor.WriteRegister | instructions.h:761-866 | register, TLB flush and exits for each system-register write |
| Simulator.Processor.BranchIf | instructions.h:608-641 | the target is set exactly if the condition holds; stale flags end the simulation |
| Simulator.Processor.SelectStack | simulator.c:137-141 | SPR is loaded from the bank of the mode that is entered |
| Simulator.Processor.FetchAndExecute | simulator.c:153-170 | a fetch fault skips the execution |
| Simulator.Processor.RaiseFault | simulator.c:172-180 | a fault becomes pending and sends PC back to the same instruction |
| Simulator.Processor.FinishCycle | simulator.c:172-233 | fault, stack write-back and next PC in the order of the loop |
| Simulator.Processor.Iteration | simulator.c:136-247 | one iteration on the global state is the step on values that the run theorems are about |
| Simulator.Processor.Exec | simulator.c:136-247 | any number of iterations on the global state are the run on values |

## Left out

- Sockets, named pipes, msgpack, timers, signals, the display and MMC devices, ELF parsing and the Python clients: foreign calls. Received bytes, device words and pending device interrupts are arbitrary inputs.
- Uncached accesses at or above `MEMORY_MAX_ADDR`: the memory hierarchy replies with the physical address, and the processor takes the bus value as an input; the device effects are only in `IoDecode` and `Fifos`.
- Accesses to a 4 MB region between overwriting one of its valid entries and the next flush, and reads or sub-word stores of page-table words that walks may have updated: `Refinement.EndToEnd` excludes them, because what they see depends on TLB contents and on R and D bits the caches may lack.
- Debug printing, breakpoints, single-stepping, tracebacks, profiling counters, the null-pointer notice and the exit code.
- The generated opcode dispatch and the simple register instructions: the decoder is an arbitrary function, and `Compute` and `Divide` stand for the instructions that assign one register and the flags.
- Undefined C cases: shifts and rotates by 0 or by 32 and more, the smallest integer divided by -1, table indices of 128 and more. `inc` and `dec` flags when both operands are one register. Misaligned full-word stores.
- Levels of `dps_sci_interrupt`: its outcome is an input of each iteration.
- The address of `tas` ignores displacements in the sources; here its operand has the form of the others, and the decoder is taken to give it displacement 0.
- Polling of the serial line and the monitor inside `exec`: `Fifos` treats them as operations of their own.
- `memory_vm_memcmp`, `memory_free`, and the branches compiled out by the cache and prefetch settings.
- Aliasing inside one cache set: a set is a value (four lines with tag and data together) held in an array, so a refill replaces the row instead of writing through a pointer; likewise a host page is a value held in the page table.
- Simulator.Processor.Exec: stops at `exec_finish` as the loop does, but `RunFor`, which the run theorems use, goes on; the theorems therefore cover more runs than the simulator makes.
- Isolation.UserRunConfined: for the accesses of programs that keep their mode and directory; the simulator lets every mode write the system registers, and a program that does so leaves the hypothesis.
- Loader.LoadChunk: one data chunk of one section that lies in RAM; a chunk that leaves RAM would be written to device memory.
- HostMemory.Vm.PhysToVm: addresses below `MEMORY_MAX_ADDR` only; `calloc` never fails.
- MemorySystem.System.CacheRead: addresses below `MEMORY_MAX_ADDR`; the guard for the others is in the methods that call it.
- MemorySystem.System.CacheWrite: likewise.
- MemorySystem.System.PageWalk: a directory or table that is misaligned or lies outside RAM ends the modelled walk, as `TableOutsideRam`; the source reads on.
- MemorySystem.System.St32: aligned RAM addresses; a misaligned store through a host pointer is undefined C, and would straddle words the caches keep apart.
- Simulator.Processor.StoreValue: a misaligned full-word store ends the modelled run, for the same reason.
- Simulator.Processor.PushValue: likewise for a misaligned SPR.
- Simulator.Processor.IdtStore: a misaligned table, or one that leaves its host page, ends the modelled run; the source would copy from host memory beyond the page.
- Simulator.Processor.DispatchNonmask: the exit code the test-suite mode takes from GR2.
- Simulator.Processor.FinishCycle: the device's reaction to an uncached store, and the polling of the serial line and the monitor.
- Simulator.Processor.Iteration: likewise.
