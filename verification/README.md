# A verified model of the RISC-V tooling

This project models the parts of the repository that speed up, repack or remotely drive something simple,
and proves that they do what the simple thing does. Methods follow the loops and the in-place updates of
the source; each is proved against a specification function or an invariant, and the lemmas prove of those
what the code is for.

| file | what it models |
|---|---|
| `core_list.dfy`, `core_bench.dfy`, `core_search.dfy` | CoreMark's linked list: the bottom-up merge sort on the heap, reversal, removal and its undoing, and the whole list benchmark |
| `mmu_walk.dfy`, `mmu_arch.dfy` | Spike's page-table walk, and address translation as the architecture states it for Sv32, Sv39 and Sv48 |
| `triggers.dfy`, `mmu_tlb.dfy`, `mmu_access.dfy` | hardware triggers, the software TLB with every place that flushes it, and what loads, stores and fetches come to |
| `decoder.dfy` | the instruction decoder with its opcode cache and its table that moves entries to the front |
| `cache_sim.dfy` | the cache simulator, set-associative and map-based, as refinements of one map from lines to dirty bits |
| `memif.dfy`, `hex_writer.dfy` | byte transfers over aligned chunks, the default clear, the hex writer, and both backends end to end |
| `dtm_words.dfy`, `dtm_target.dfy`, `dtm.dfy` | the debug transport that reads, writes and clears memory with programs in the program buffer, and the target it drives |
| `debug_module.dfy`, `debug_history.dfy`, `debug_registers.dfy`, `debug_commands.dfy` | Spike's debug module, its harts in the debug ROM, its registers bit by bit over every history, and its commands |
| `jtag_dtm.dfy`, `jtag_scans.dfy` | the JTAG port in front of it, and its scans bit by bit |
| `wide_words.dfy`, `soft_float.dfy` | n-word arithmetic, 128-bit products, rounding to integral, conversions, and the quotient of single division |
| `scheduler.dfy` | the round-robin stepping of processors |
| `bits.dfy` | bitwise operations of machine words as arithmetic |

Machine integers are natural numbers with their width written out (`% WORD`, subset types). The functions
named `Next`, `Step`, `Served` and the like are the specifications; the classes hold the fields of the source's
classes, and their methods are proved to take exactly these steps.

## Where the code does less than one expects

Each of these is a lemma with a concrete input, beside a lemma that says exactly when the code is right.

* Resetting a processor clears its translation state without flushing the TLB. Hits stay right if and only if
  every cached page was mapped to itself (`Tlb.ResetBreaksHits`, `Tlb.ResetKeepsInvIff`).
* Triggers depend on the TLB in two ways: a fetch is checked against them on a hit only, and a signed load that hits
  shows them the sign-extended datum (`Tlb.FetchOverlooksTrigger`, `Tlb.SignedLoadOverlooksTrigger`; `Tlb.FetchRefinesIff`,
  `Tlb.LoadRefinesIff`, and `Tlb.RunExactIff` for whole runs).
* A trigger on a naturally aligned range of addresses fires on the lower half of the range only (`Triggers.UpperHalfMissed`,
  `Triggers.NapotLowerHalf`, `Accesses.WatchpointIff`).
* The decoder answers "illegal" for instruction word 0, whatever the table says, until a non-zero multiple of 8191 has been
  decoded (`Decoder.WordZeroMatters`, `Decoder.RunExactIff`).
* The decoder's rotation is harmless because overlapping entries of the table share one match value; without that it
  changes later answers (`Decoder.OverlapMatters`, `Decoder.MovedSameFirstIff`).
* The hex writer's `write_chunk` never advances its source, so it stores its data if and only if the data repeats
  the first line (`HexWriter.TwoLinesAreNot`, `HexWriter.WriteExactIff`). `memif_t` never passes more than a line.
* A debugger that selects another hart, resets the module, or resets the selected processor in the middle of a command can make the
  command run twice or be called done too early (`DebugModule.CarelessRunsTwice`, `DebugModule.ResetAbandons`;
  `DebugModule.ControlInvIff`, `DebugModule.ControlSafeIff`). Otherwise each accepted command runs exactly once
  (`DebugModule.ExecutedOnce`); section 3.6 of RISC-V External Debug Support 0.13.2 asks as much for the selection of harts.
* CoreMark's comment promises the original order after the last sort. With equal indices it depends on the order that the
  phases before leave (`CoreBench.EqualIndicesSwap`, `CoreBench.BackToOriginalIff`). As long as some index is unused, a list comes
  back for every wanted index and number of rounds if and only if its indices are strictly increasing (`CoreBench.StrictIdxIff`).

Remarks on the code that the model follows, without a theorem of their own:

* A debug module has no data registers until its first reset. A reset while busy leaves the GO flags set, a command
  written while busy still replaces the command register, and nothing ever sets `anyresumeack`.
* The JTAG port keeps the former data register when the instruction is not one of its three, captures nothing in
  CAPTURE_IR, uses on a clock edge the TMS and TDI of the previous call, and leaves `ir`, `dr` and `dr_length` unset when
  constructed.
* `dtm_t::write_chunk` stores one word when asked for none, and `clear_chunk` of length 0 would not stop at its end
  address; `memif_t` asks for positive multiples only, and so do the contracts here.

## Model

| member | source | states |
|---|---|---|
| CoreList.CalcFunc | riscv-tools/fpga_test4sim/coremark4sim/core_list_join.c:63-99 | the 7-bit value of a payload is computed once, by the workload that its low bits name or from the payload itself, goes into the checksum, is cached with its mark, and never changes afterwards; index and backup byte are untouched |
| CoreList.Compare | riscv-tools/fpga_test4sim/coremark4sim/core_list_join.c:101-118 | a comparison returns the difference of two keys, settles both payloads, and leaves a settled payload alone |
| CoreList.KeptMerging | riscv-tools/fpga_test4sim/coremark4sim/core_list_join.c:455-475 | a comparison in the middle of a merge, which may rewrite payloads, disturbs no order established so far |
| CoreList.TakeA | riscv-tools/fpga_test4sim/coremark4sim/core_list_join.c:458-475 | outputting the front of the first run keeps every pair in (key, former place) order |
| CoreList.TakeB | riscv-tools/fpga_test4sim/coremark4sim/core_list_join.c:458-475 | the same for the second run, taken only when strictly smaller, so that equal keys keep their order |
| CoreList.PickFront | riscv-tools/fpga_test4sim/coremark4sim/core_list_join.c:466-471 | decides between the two front cells exactly by (key, former place) |
| CoreList.ChooseRun | riscv-tools/fpga_test4sim/coremark4sim/core_list_join.c:458-472 | all four branches of the choice, exhausted runs included, pick the run whose front comes next |
| CoreList.AppendCell | riscv-tools/fpga_test4sim/coremark4sim/core_list_join.c:474-480 | relinks one cell onto the output in place without losing a cell of either run |
| CoreList.TakeFront | riscv-tools/fpga_test4sim/coremark4sim/core_list_join.c:460-472 | takes the front cell off the chosen run and counts it |
| CoreList.MergeStep | riscv-tools/fpga_test4sim/coremark4sim/core_list_join.c:456-480 | one turn of the inner loop conserves all cells and keeps the merge in order, with the counters saying what is left |
| CoreList.MergeRuns | riscv-tools/fpga_test4sim/coremark4sim/core_list_join.c:455-481 | two adjacent runs become one sorted run of exactly their cells, and p stands behind the second |
| CoreList.StepAlong | riscv-tools/fpga_test4sim/coremark4sim/core_list_join.c:443-450 | psize is insize or the length of what is left, and q the cell that many places on |
| CoreList.MergedRunsSorted | riscv-tools/fpga_test4sim/coremark4sim/core_list_join.c:437-484 | merging two neighbouring runs keeps all runs sorted and earlier runs before later ones |
| CoreList.PassStep | riscv-tools/fpga_test4sim/coremark4sim/core_list_join.c:440-484 | one merge of a pass keeps the state of the pass: shape, spread of the cells, order |
| CoreList.SortPass | riscv-tools/fpga_test4sim/coremark4sim/core_list_join.c:433-487 | a pass leaves the same cells, acyclic and null-terminated, in half as many runs of twice the size |
| CoreList.NextPass | riscv-tools/fpga_test4sim/coremark4sim/core_list_join.c:433-492 | what a pass leaves is what the next one needs; the number of runs is the measure of the outer loop |
| CoreList.LastPass | riscv-tools/fpga_test4sim/coremark4sim/core_list_join.c:489-490 | at most one merge means that one sorted run with all cells is left |
| CoreList.MergeSort | riscv-tools/fpga_test4sim/coremark4sim/core_list_join.c:426-492 | for every non-null acyclic list and each comparison: terminates with an acyclic null-terminated list of exactly the same cells, sorted and stable, and with two or more cells all payloads settled |
| CoreList.SortedUnique | riscv-tools/fpga_test4sim/coremark4sim/core_list_join.c:426-492 | the contract of the sort admits one result only: sorted and stable orderings of the same cells are equal |
| CoreBench.Reverse | riscv-tools/fpga_test4sim/coremark4sim/core_list_join.c:395-404 | reversal in place: exactly the reversed list of cells |
| CoreBench.Find | riscv-tools/fpga_test4sim/coremark4sim/core_list_join.c:370-381 | the first cell that matches by index or by lower data byte, null exactly if none does |
| CoreBench.Remove | riscv-tools/fpga_test4sim/coremark4sim/core_list_join.c:316-332 | takes the next cell out of the list and swaps the two payloads |
| CoreBench.UndoRemove | riscv-tools/fpga_test4sim/coremark4sim/core_list_join.c:345-357 | links a removed cell back and swaps the payloads again |
| CoreBench.RemoveAndUndo | riscv-tools/fpga_test4sim/coremark4sim/core_list_join.c:316-357 | removal and its undoing restore every link and every payload |
| CoreBench.MoveUp | riscv-tools/fpga_test4sim/coremark4sim/core_list_join.c:160-166 | the cell after the found one goes right behind the head; all other cells keep their order |
| CoreBench.FindRound | riscv-tools/fpga_test4sim/coremark4sim/core_list_join.c:152-180 | a round reverses the list, moves what follows a find to the front, and adds exactly the bit of the found or the last payload but one; the cells and their payloads stay |
| CoreBench.FindPhase | riscv-tools/fpga_test4sim/coremark4sim/core_list_join.c:149-182 | all rounds together: the list, the wanted index, the finds and misses and the sum are those of the search function |
| CoreBench.CrcFrom | riscv-tools/fpga_test4sim/coremark4sim/core_list_join.c:193-196 | the checksum loop folds in the head's data once for each cell from the finder on |
| CoreBench.RemovePhase | riscv-tools/fpga_test4sim/coremark4sim/core_list_join.c:187-198 | remove, checksum and undo leave the list as it was, and the head was folded in exactly as often as cells follow the wanted one while the third cell was out |
| CoreBench.SettledAll | riscv-tools/fpga_test4sim/coremark4sim/core_list_join.c:199 | a sort of two or more cells compares every cell at least once |
| CoreBench.BackToOriginalIff | riscv-tools/fpga_test4sim/coremark4sim/core_list_join.c:132-206 | the final sort gives the first list back if and only if it was in index order and cells with equal indices come out of the search and the sort by content in their order |
| CoreBench.StrictIdxIff | riscv-tools/fpga_test4sim/coremark4sim/core_list_join.c:132-206 | the list comes back for every wanted index, number of rounds and computed content if and only if its indices are strictly increasing, provided that one index from 0 to 0x7ffe belongs to no cell |
| CoreBench.BenchDone | riscv-tools/fpga_test4sim/coremark4sim/core_list_join.c:183-206 | the two sorts and the undone removal together: index order, and every lower data byte restored from its backup |
| CoreBench.BenchList | riscv-tools/fpga_test4sim/coremark4sim/core_list_join.c:132-206 | the whole benchmark: same cells, same payload in each, data restored, index order, the exact condition for the starting order, and the checksum that is returned |
| CoreBench.EqualIndicesSwap | riscv-tools/fpga_test4sim/coremark4sim/core_list_join.c:132-206 | a list of three cells that the benchmark does not give back |
| CoreBench.IndicesCollide | riscv-tools/fpga_test4sim/coremark4sim/core_list_join.c:243-254 | the indices that core_list_init gives can be equal, so that such lists arise |
| CoreBench.RestoredExactly | riscv-tools/fpga_test4sim/coremark4sim/core_list_join.c:112-118 | a payload that agreed with its backup byte before the run has exactly its old value after it |
| CoreSearch.RoundMeans | riscv-tools/fpga_test4sim/coremark4sim/core_list_join.c:145-165 | one round, cell by cell: a find or a miss, the list reversed, with the cell after the found one behind the head, and the bit counted: bit 9 of an odd found payload, or bit 8 of the last payload but one |
| CoreSearch.SearchMeans | riscv-tools/fpga_test4sim/coremark4sim/core_list_join.c:142-170 | all rounds: each looks for the next index, or for its own number once indices are negative; the sum is that of all bits, plus four for each find, less one for each miss, modulo 2^16 |
| CoreSearch.RemovedMeans | riscv-tools/fpga_test4sim/coremark4sim/core_list_join.c:174-182 | while the third cell is out, the second holding its payload, the head is folded in once for each cell from the first wanted one on, or from the second on if none is |
| CoreSearch.ChecksumMeans | riscv-tools/fpga_test4sim/coremark4sim/core_list_join.c:174-198 | the checksum of the benchmark as a chain of single steps from that sum |
| Walk.StepMeaning | riscv-tools/riscv-isa-sim/riscv/mmu.cc:178-217 | one level of the walk, said as the architecture does: which entry, when pointer, when leaf, when fault |
| Walk.DoWalk | riscv-tools/riscv-isa-sim/riscv/mmu.cc:160-226 | the loop computes the walk, with the errors of a missing table and of a page fault |
| Walk.WalkOnlyIf | riscv-tools/riscv-isa-sim/riscv/mmu.cc:178-217 | a successful walk went through linked valid pointers to an aligned leaf that permits the access |
| Walk.WalkIf | riscv-tools/riscv-isa-sim/riscv/mmu.cc:178-217 | every such path makes the walk succeed with that leaf's frame |
| Walk.WalkSucceedsIff | riscv-tools/riscv-isa-sim/riscv/mmu.cc:160-217 | the walk succeeds with v if and only if the address is canonical and mapped by such a path with frame v |
| Walk.NonCanonicalFaults | riscv-tools/riscv-isa-sim/riscv/mmu.cc:170-175 | a non-canonical address always faults, in each mode |
| Walk.TranslateBare | riscv-tools/riscv-isa-sim/riscv/mmu.cc:163-164 | without a page table the address is cut to XLEN bits |
| Walk.TranslateWalked | riscv-tools/riscv-isa-sim/riscv/mmu.cc:36-48 | OR with the page offset is addition to the frame |
| Walk.SuperpageAddress | riscv-tools/riscv-isa-sim/riscv/mmu.cc:212-215 | the frame of a leaf at level j plus the offset is ppn * 4096 plus the low 12 + j * idxbits address bits |
| Walk.TranslateMapped | riscv-tools/riscv-isa-sim/riscv/mmu.cc:36-48 | translation through a mapping path gives exactly that address |
| Walk.TranslateSamePage | riscv-tools/riscv-isa-sim/riscv/mmu.cc:36-48 | two addresses on one 4 KiB page translate to one physical page, or both fail |
| Walk.TranslateSameKind | riscv-tools/riscv-isa-sim/riscv/mmu.cc:160-217 | two kinds of access that both succeed in one mode reach the same address |
| Architecture.TranslateIff | riscv-tools/riscv-isa-sim/riscv/mmu.h:304-326 | in architecture terms, from xlen, satp and the fields of mstatus: translate gives pa if and only if the mode maps the address to pa: directly, cut to 32 bits or not, or through the two, three or four levels of Sv32, Sv39 and Sv48 with their roots, entry sizes and canonical addresses |
| Architecture.FaultsIff | riscv-tools/riscv-isa-sim/riscv/mmu.cc:160-217 | abort exactly in the reserved mode, a load access fault exactly if the pointers lead to an entry outside RAM, a page fault exactly in all other cases that give no address |
| Architecture.WalkMeans | riscv-tools/riscv-isa-sim/riscv/mmu.cc:178-217 | the loop over the levels, from any level and base, finds the mapping, the missing table, or neither |
| Architecture.EntryBits | riscv-tools/riscv-isa-sim/riscv/mmu.cc:187-210 | which bits of an entry make it a pointer, and which let a user or supervisor access through |
| Architecture.ExtendedIff | riscv-tools/riscv-isa-sim/riscv/mmu.cc:170-175 | the bits of an address from k up are all equal if and only if its high part is 0 or all ones |
| Architecture.CanonicalIff | riscv-tools/riscv-isa-sim/riscv/mmu.cc:170-175 | the source calls an address canonical if and only if its bits from 38 or 47 up are all equal |
| Triggers.CountTrailingOnes | riscv-tools/riscv-isa-sim/riscv/processor.h:151-157 | cto finds the lowest zero bit |
| Triggers.NapotMeans | riscv-tools/riscv-isa-sim/riscv/processor.h:246-252 | a range trigger compares all bits from the lowest zero of tdata2 up |
| Triggers.NapotLowerHalf | riscv-tools/riscv-isa-sim/riscv/processor.h:246-252 | so it fires if and only if the value is in the lower half of the range that the specification gives it |
| Triggers.UpperHalfMissed | riscv-tools/riscv-isa-sim/riscv/processor.h:246-252 | an address in the upper half of a range of 16 |
| Triggers.MasksMean | riscv-tools/riscv-isa-sim/riscv/processor.h:261-273 | the two mask types compare, bit by bit, the bits that the upper half of tdata2 names |
| Accesses.TriggerMatchIff | riscv-tools/riscv-isa-sim/riscv/processor.h:205-284 | the trigger that matches is the first one that watches the access, has the current mode, fires and is not chained; none does in debug mode; and there is no match if and only if there is no such trigger |
| Accesses.CheckMeans | riscv-tools/riscv-isa-sim/riscv/mmu.h:273-286 | a pending match switches the check off; a match stops the access and stays pending as its timing says |
| Accesses.LoadFromRamIff | riscv-tools/riscv-isa-sim/riscv/mmu.cc:90-110 | a load gives bytes of RAM if and only if it is aligned, its address is mapped to them, and no trigger stops it |
| Accesses.LoadFromDeviceIff | riscv-tools/riscv-isa-sim/riscv/mmu.cc:90-110 | the same for a device outside RAM |
| Accesses.LoadStoppedIff | riscv-tools/riscv-isa-sim/riscv/mmu.cc:104-109 | which trigger stops a load: the first one that fires on what it read |
| Accesses.LoadFailsIff | riscv-tools/riscv-isa-sim/riscv/mmu.cc:90-102 | when a load is misaligned, faults in translation, or finds nothing |
| Accesses.SignExtendMeans | riscv-tools/riscv-isa-sim/riscv/mmu.h:104-114 | what a checked signed load shows to the triggers: the loaded bytes and copies of their top bit |
| Accesses.StoreCompletesIff | riscv-tools/riscv-isa-sim/riscv/mmu.cc:112-132 | when a store reaches RAM or a device, and with what |
| Accesses.StoreStoppedIff | riscv-tools/riscv-isa-sim/riscv/mmu.cc:116-121 | when a trigger stops a store, wherever it would have gone |
| Accesses.StoreFailsIff | riscv-tools/riscv-isa-sim/riscv/mmu.cc:112-132 | when a store is misaligned, faults in translation, or is taken by nothing |
| Accesses.WatchpointIff | riscv-tools/riscv-isa-sim/riscv/processor.h:205-284 | a watchpoint on a range stops a mapped store if and only if the address is in the lower half of the range |
| Accesses.FetchIff | riscv-tools/riscv-isa-sim/riscv/mmu.h:255-267 | what a checked fetch gives, from RAM and from a device, and which trigger stops it |
| Accesses.FetchFailsIff | riscv-tools/riscv-isa-sim/riscv/mmu.cc:50-62 | when a fetch faults |
| Accesses.SatpMeans | riscv-tools/riscv-isa-sim/riscv/processor.cc:396-405 | what a write of satp selects: the scheme and its root, the other fields zero, or nothing for an unknown scheme |
| Accesses.PrivilegeMeans | riscv-tools/riscv-isa-sim/riscv/processor.cc:190-197 | the mode of fetches after a change of privilege, the reserved one being user mode; in debug mode nothing is translated and no trigger stops anything |
| Accesses.CachedAfterMiss | riscv-tools/riscv-isa-sim/riscv/mmu.cc:134-158 | after a miss on untraced RAM every access of the kind to that page hits, pages in the same slot miss, and the other slots are as before |
| Tlb.Hart.FlushTlb | riscv-tools/riscv-isa-sim/riscv/mmu.cc:27-34 | no valid tag is left |
| Tlb.Hart.RefillTlb | riscv-tools/riscv-isa-sim/riscv/mmu.cc:134-158 | drops tags of other pages in all three arrays, then enters the page with the right check bit |
| Tlb.Hart.SlowLoad | riscv-tools/riscv-isa-sim/riscv/mmu.cc:90-110 | a load that misses: memory or device, refill unless traced, triggers |
| Tlb.Hart.Load | riscv-tools/riscv-isa-sim/riscv/mmu.h:82-102 | a load is one step of the machine with TLB |
| Tlb.Hart.SlowStore | riscv-tools/riscv-isa-sim/riscv/mmu.cc:112-132 | a store that misses, with its triggers before the write |
| Tlb.Hart.Store | riscv-tools/riscv-isa-sim/riscv/mmu.h:116-133 | a store is one step of the machine with TLB |
| Tlb.Hart.Fetch | riscv-tools/riscv-isa-sim/riscv/mmu.h:255-267 | a fetch is one step of the machine with TLB |
| Tlb.Hart.DoSetPrivilege | riscv-tools/riscv-isa-sim/riscv/processor.cc:190-197 | a change of privilege flushes |
| Tlb.Hart.DoSetMstatus | riscv-tools/riscv-isa-sim/riscv/processor.cc:322-325 | a write of mstatus flushes if it touches a field that translation reads |
| Tlb.Hart.DoSetSatp | riscv-tools/riscv-isa-sim/riscv/processor.cc:396-405 | a write of the page-table base flushes, and unsupported modes change nothing |
| Tlb.Hart.TriggerUpdated | riscv-tools/riscv-isa-sim/riscv/processor.cc:751-769 | a trigger change flushes and recomputes the three check flags |
| Tlb.Hart.SetTdata2 | riscv-tools/riscv-isa-sim/riscv/processor.cc:462-469 | a write of what a trigger compares with does not flush, and need not |
| Tlb.RefillStructured | riscv-tools/riscv-isa-sim/riscv/mmu.cc:134-158 | after every refill all valid tags of a slot name one page, which maps to that slot, with the check bits of the flags |
| Tlb.RefillCoherent | riscv-tools/riscv-isa-sim/riscv/mmu.cc:134-158 | and every valid tag stands for the translation that the walk gives now |
| Tlb.AfterMissInv | riscv-tools/riscv-isa-sim/riscv/mmu.cc:90-132 | a miss, refilled or not, keeps the invariant |
| Tlb.HitMeansWalk | riscv-tools/riscv-isa-sim/riscv/mmu.h:82-133 | with one mode for fetches and data, a hit of any kind leads where translate leads |
| Tlb.EmptyInv | riscv-tools/riscv-isa-sim/riscv/mmu.cc:27-34 | a flush establishes the invariant in every processor state |
| Tlb.ControlKeepsInv | riscv-tools/riscv-isa-sim/riscv/processor.cc:190-197 | every state change keeps the invariant: those that matter flush, the others are invisible to translation |
| Tlb.LoadRefinesIff | riscv-tools/riscv-isa-sim/riscv/mmu.h:82-102 | a load with the TLB has the outcome of one without if and only if it is not a checked signed load that hits while its triggers tell the sign-extended datum from the plain one |
| Tlb.StoreRefines | riscv-tools/riscv-isa-sim/riscv/mmu.h:116-133 | a store with the TLB has the outcome of one without |
| Tlb.FetchRefinesIff | riscv-tools/riscv-isa-sim/riscv/mmu.h:255-267 | a fetch with the TLB agrees with one that is always checked if and only if it hits, or no trigger would have fired: triggers are checked on hits only |
| Tlb.FetchOverlooksTrigger | riscv-tools/riscv-isa-sim/riscv/mmu.h:255-267 | from an empty TLB the same fetch is let through the first time and stopped the second |
| Tlb.SignedLoadOverlooksTrigger | riscv-tools/riscv-isa-sim/riscv/mmu.h:89-96 | from an empty TLB the same signed load is stopped the first time and let through the second |
| Tlb.StepRefines | riscv-tools/riscv-isa-sim/riscv/mmu.h:82-267 | any step with the TLB keeps the invariant and agrees with the step without it, exactly so on the two conditions above |
| Tlb.RunRefines | riscv-tools/riscv-isa-sim/riscv/mmu.h:82-267 | over every run from a coherent TLB every access reaches the bytes that a walk finds |
| Tlb.RunExactIff | riscv-tools/riscv-isa-sim/riscv/mmu.h:82-267 | all outcomes of a run, triggers included, are those of the processor without a TLB if and only if no step of it is such a fetch or signed load |
| Tlb.RunFromEmpty | riscv-tools/riscv-isa-sim/riscv/mmu.cc:27-34 | in particular over every run that starts after a flush |
| Tlb.ResetKeepsInvIff | riscv-tools/riscv-isa-sim/riscv/processor.cc:145-154 | processor reset does not flush: hits stay right if and only if every cached page was mapped to itself |
| Tlb.ResetBreaksHits | riscv-tools/riscv-isa-sim/riscv/processor.cc:145-154 | a concrete load that reads the wrong page after a reset |
| Tlb.FirstLoad | riscv-tools/riscv-isa-sim/riscv/mmu.cc:90-110 | the first load of a shifted mapping caches a page that is not mapped to itself, so the failing state is reached |
| Decoder.SortedGrouped | riscv-tools/riscv-isa-sim/riscv/processor.cc:676-689 | the sort order keeps equal match values together and the catch-all last |
| Decoder.FirstIsLargest | riscv-tools/riscv-isa-sim/riscv/processor.cc:676-685 | what the sorted table decodes a word to, whatever its order: of the entries that match, the one with the largest match value and then the largest mask |
| Decoder.MovedSameFirst | riscv-tools/riscv-isa-sim/riscv/processor.cc:651-662 | moving an entry that is alone with its match value changes no first match |
| Decoder.MovedSameFirstIff | riscv-tools/riscv-isa-sim/riscv/processor.cc:651-662 | without the condition on overlaps: a move changes no first match if and only if the moved entry matches no word that an earlier one matches |
| Decoder.MoveKeepsEquivalent | riscv-tools/riscv-isa-sim/riscv/processor.cc:651-662 | every rearrangement keeps the table grouped and decoding as the sorted one |
| Decoder.LookupRight | riscv-tools/riscv-isa-sim/riscv/processor.cc:642-669 | a lookup answers by first match of the sorted table, except for word 0 as long as nothing has displaced what slot 0 began with, and keeps the invariant |
| Decoder.RunDecodesRight | riscv-tools/riscv-isa-sim/riscv/processor.cc:642-669 | what every lookup of every sequence answers, whatever was rotated and cached before |
| Decoder.RunExactIff | riscv-tools/riscv-isa-sim/riscv/processor.cc:642-669 | from a fresh cache an answer is that of the sorted table if and only if the word is not 0, or a non-zero multiple of 8191 came before, or word 0 is illegal anyway |
| Decoder.WordZeroMatters | riscv-tools/riscv-isa-sim/riscv/processor.cc:644-648 | a table for which word 0 is called illegal until word 8191 has been decoded |
| Decoder.OverlapMatters | riscv-tools/riscv-isa-sim/riscv/processor.cc:651-662 | a table with other overlaps for which one lookup changes the answer to the next |
| Decoder.Processor.BuildOpcodeMap | riscv-tools/riscv-isa-sim/riscv/processor.cc:676-689 | the sorted table and the cache full of the illegal instruction satisfy the invariant |
| Decoder.Processor.Search | riscv-tools/riscv-isa-sim/riscv/processor.cc:648-650 | the search ends, at the first match |
| Decoder.Processor.Rotate | riscv-tools/riscv-isa-sim/riscv/processor.cc:655-659 | the in-place rotation is the move to the front |
| Decoder.Processor.Miss | riscv-tools/riscv-isa-sim/riscv/processor.cc:645-667 | a miss searches, rotates under the guard, and fills the cache slot |
| Decoder.Processor.DecodeInsn | riscv-tools/riscv-isa-sim/riscv/processor.cc:642-669 | decode_insn is the lookup, and its answer is the one stated for runs |
| CacheSim.PowerOfTwoTest | riscv-tools/riscv-isa-sim/riscv/cachesim.cc:46-49 | x & (x - 1) is zero for powers of two only |
| CacheSim.IndexShift | riscv-tools/riscv-isa-sim/riscv/cachesim.cc:51-53 | the shift loop finds the logarithm of the line size |
| CacheSim.TagSplits | riscv-tools/riscv-isa-sim/riscv/cachesim.h:43-44 | a valid tag is its line number and its dirty bit, and nothing else |
| CacheSim.StepKeepsStores | riscv-tools/riscv-isa-sim/riscv/cachesim.cc:124-154 | one access, with any victim: a line is held and dirty if and only if it was stored to since its last write-back |
| CacheSim.RunKeepsStores | riscv-tools/riscv-isa-sim/riscv/cachesim.cc:124-154 | the same over every run: no store is ever lost |
| CacheSim.CallsCount | riscv-tools/riscv-isa-sim/riscv/cachesim.cc:138-150 | the next level sees exactly one read per miss and one write per write-back |
| CacheSim.CountersMean | riscv-tools/riscv-isa-sim/riscv/cachesim.cc:126-136 | every counter is a number of things in the history: accesses, bytes and misses of loads and of stores, and write-backs |
| CacheSim.StepCalls | riscv-tools/riscv-isa-sim/riscv/cachesim.cc:138-150 | a hit calls nobody; a miss reads its whole line, after writing the whole line that it drops if that is dirty |
| CacheSim.Rewritten | riscv-tools/riscv-isa-sim/riscv/cachesim.cc:115-122 | overwriting a slot of a set replaces one line by another; no set holds a line twice |
| CacheSim.LineBase | riscv-tools/riscv-isa-sim/riscv/cachesim.cc:149-150 | the address read below is the base of the accessed line |
| CacheSim.ShiftsBack | riscv-tools/riscv-isa-sim/riscv/cachesim.cc:142 | the address written back is the base of the victim's line, within 64 bits |
| CacheSim.SetAssociative.constructor | riscv-tools/riscv-isa-sim/riscv/cachesim.cc:44-68 | a new cache holds nothing |
| CacheSim.SetAssociative.CheckTag | riscv-tools/riscv-isa-sim/riscv/cachesim.cc:103-113 | finds the slot of the line exactly if the cache holds the line |
| CacheSim.SetAssociative.Victimize | riscv-tools/riscv-isa-sim/riscv/cachesim.cc:115-122 | puts the line, clean, over a slot of its own set and returns the old tag |
| CacheSim.SetAssociative.Fill | riscv-tools/riscv-isa-sim/riscv/cachesim.cc:136-153 | a miss is a step of the abstract cache, with its calls below and its counters |
| CacheSim.SetAssociative.Access | riscv-tools/riscv-isa-sim/riscv/cachesim.cc:124-154 | every access is a step of the abstract cache, with counters that tally with its history; only lines of the same set are evicted |
| CacheSim.FullyAssociative.constructor | riscv-tools/riscv-isa-sim/riscv/cachesim.cc:156-159 | a new cache holds nothing |
| CacheSim.FullyAssociative.Victimize | riscv-tools/riscv-isa-sim/riscv/cachesim.cc:167-179 | evicts only when full, and holds at most `ways` lines |
| CacheSim.FullyAssociative.Fill | riscv-tools/riscv-isa-sim/riscv/cachesim.cc:136-153 | a miss is a step of the same abstract cache |
| CacheSim.FullyAssociative.Access | riscv-tools/riscv-isa-sim/riscv/cachesim.cc:161-179 | the map-based cache satisfies the same abstract model, counters included; a cache that is not full keeps all lines |
| FlatMemory.FetchStored | riscv-tools/riscv-fesvr/fesvr/memif.cc:42-84 | what is stored is fetched, and every other byte stays |
| MemIf.Target.ReadChunk | riscv-tools/riscv-fesvr/fesvr/htif.h:28-35 | both backends, the lines of the hex writer and the debug transport, read exactly the bytes of one memory |
| MemIf.Target.WriteChunk | riscv-tools/riscv-fesvr/fesvr/htif.h:28-35 | both backends change exactly the range of that memory, up to chunk_max_size; the hart behind a debug transport keeps its registers |
| MemIf.Target.ClearChunk | riscv-tools/riscv-fesvr/fesvr/htif.h:28-35 | both ways to clear write exactly zeros over exactly the range |
| MemIf.Target.ClearByWriting | riscv-tools/riscv-fesvr/fesvr/htif.cc:150-157 | the default clear, by pieces of at most chunk_max_size |
| MemIf.Masks | riscv-tools/riscv-fesvr/fesvr/memif.cc:11-22 | the mask arithmetic finds the aligned chunk around an address |
| MemIf.ChunkInside | riscv-tools/riscv-fesvr/fesvr/memif.cc:9-40 | an aligned chunk that meets the memory is inside it |
| MemIf.Memif.ReadHead | riscv-tools/riscv-fesvr/fesvr/memif.cc:12-23 | the part before the first aligned address, or all of a short transfer |
| MemIf.Memif.ReadTail | riscv-tools/riscv-fesvr/fesvr/memif.cc:25-35 | the part after the last whole chunk |
| MemIf.Memif.ReadChunks | riscv-tools/riscv-fesvr/fesvr/memif.cc:37-39 | the whole chunks, in calls of aligned multiples up to chunk_max_size |
| MemIf.Memif.Read | riscv-tools/riscv-fesvr/fesvr/memif.cc:9-40 | for every address and length inside the memory: exactly its bytes, the rest of the buffer untouched, with aligned positive chunk calls only |
| MemIf.Memif.WriteHead | riscv-tools/riscv-fesvr/fesvr/memif.cc:45-56 | read, patch and write back the first chunk |
| MemIf.Memif.WriteTail | riscv-tools/riscv-fesvr/fesvr/memif.cc:58-69 | read, patch and write back the last chunk |
| MemIf.Memif.WriteChunks | riscv-tools/riscv-fesvr/fesvr/memif.cc:79-82 | the whole chunks in between |
| MemIf.Memif.WriteOrClear | riscv-tools/riscv-fesvr/fesvr/memif.cc:71-83 | an all-zero stretch is cleared in one call, with the same effect |
| MemIf.Memif.Write | riscv-tools/riscv-fesvr/fesvr/memif.cc:42-84 | for every address and length inside the memory: changes exactly those bytes |
| MemIf.Memif.WriteThenRead | riscv-tools/riscv-fesvr/fesvr/memif.cc:9-84 | end to end over both backends: what is written at any address and length is read back, the lines or the memory behind the debug module hold exactly that, and the hart keeps its registers |
| HexWriter.Hexwriter.ReadChunk | riscv-tools/riscv-fesvr/fesvr/htif_hexwriter.cc:12-32 | reads exactly the bytes that the lines stand for; touching a line creates it without changing the memory |
| HexWriter.Hexwriter.WriteChunk | riscv-tools/riscv-fesvr/fesvr/htif_hexwriter.cc:34-55 | writes its first line over and over: the source pointer is never advanced |
| HexWriter.WriteExactIff | riscv-tools/riscv-fesvr/fesvr/htif_hexwriter.cc:43-54 | a write stores its data if and only if the data repeats its first line |
| HexWriter.OneLineIsExact | riscv-tools/riscv-fesvr/fesvr/htif_hexwriter.h:26-27 | lengths up to chunk_max_size are one line and are stored exactly, so memif_t is served right |
| HexWriter.TwoLinesAreNot | riscv-tools/riscv-fesvr/fesvr/htif_hexwriter.cc:43-54 | two different lines in one call are not stored |
| Words.BytesOfValue | riscv-tools/riscv-fesvr/fesvr/dtm.cc:247-248 | the bytes of a loaded word are the bytes that were loaded |
| Words.ValueOfBytes | riscv-tools/riscv-fesvr/fesvr/dtm.cc:290-312 | a word stored is the word loaded back |
| Words.DataBytesValue | riscv-tools/riscv-fesvr/fesvr/dtm.cc:247-248 | the data registers, copied out, are the little-endian bytes of the transferred value |
| Dtm.LoadDecodes | riscv-tools/riscv-fesvr/fesvr/dtm.cc:23-25 | an encoded load decodes to itself for every register and immediate |
| Dtm.StoreDecodes | riscv-tools/riscv-fesvr/fesvr/dtm.cc:26-28 | an encoded store decodes to itself |
| Dtm.AddiDecodes | riscv-tools/riscv-fesvr/fesvr/dtm.cc:31 | an encoded addition decodes to itself |
| Dtm.BneDecodes | riscv-tools/riscv-fesvr/fesvr/dtm.cc:30 | an encoded branch decodes to its offset, with the scattered immediate bits |
| Dtm.ReadRuns | riscv-tools/riscv-fesvr/fesvr/dtm.cc:216-218 | a run of the reading program loads one word into s1 and moves s0 on |
| Dtm.WriteRuns | riscv-tools/riscv-fesvr/fesvr/dtm.cc:269-271 | a run of the writing program stores s1 and moves s0 on |
| Dtm.ClearRuns | riscv-tools/riscv-fesvr/fesvr/dtm.cc:374-377 | the do-while program ends after 3n + 1 instructions with exactly n words zero, also when the end address wraps to 0 |
| Dtm.TransferRuns | riscv-tools/riscv-fesvr/fesvr/dtm.cc:162-197 | a command does its transfer first and then runs the program buffer if asked to |
| Dtm.FirstRead | riscv-tools/riscv-fesvr/fesvr/dtm.cc:220-234 | the first command sets s0 and loads the first word |
| Dtm.NextRead | riscv-tools/riscv-fesvr/fesvr/dtm.cc:237-245 | each further command returns a word while it loads the next one ahead, if there is one |
| Dtm.WordStored | riscv-tools/riscv-fesvr/fesvr/dtm.cc:292-302 | a command with the word in the data registers stores exactly that word |
| Dtm.StoreAgain | riscv-tools/riscv-fesvr/fesvr/dtm.cc:305-320 | with autoexec on, writing data1 and data0 stores the next word |
| Dtm.Dtm.RunAbstractCommand | riscv-tools/riscv-fesvr/fesvr/dtm.cc:162-197 | waits for a command however many polls it takes and returns its error and its data |
| Dtm.Dtm.SaveReg | riscv-tools/riscv-fesvr/fesvr/dtm.cc:132-143 | reads a register and disturbs nothing of the hart |
| Dtm.Dtm.RestoreReg | riscv-tools/riscv-fesvr/fesvr/dtm.cc:145-160 | writes a register and nothing else of the hart |
| Dtm.Dtm.ReadAll | riscv-tools/riscv-fesvr/fesvr/dtm.cc:236-250 | the pipelined loop returns exactly the words of the chunk |
| Dtm.Dtm.ReadChunk | riscv-tools/riscv-fesvr/fesvr/dtm.cc:204-255 | read_chunk returns exactly memory[taddr .. taddr + len) and leaves memory, s0, s1 and all registers as they were |
| Dtm.Dtm.StoreAll | riscv-tools/riscv-fesvr/fesvr/dtm.cc:290-324 | the autoexec loop stores exactly the source words in order and ends with autoexec off |
| Dtm.Dtm.WriteChunk | riscv-tools/riscv-fesvr/fesvr/dtm.cc:257-328 | write_chunk changes exactly the range to exactly the source; registers as before |
| Dtm.Dtm.ClearChunk | riscv-tools/riscv-fesvr/fesvr/dtm.cc:352-391 | clear_chunk zeroes exactly the range; registers as before |
| DebugModule.Module.constructor | riscv-tools/riscv-isa-sim/riscv/debug_module.cc:19-43 | the state of a new module |
| DebugModule.Module.PerformAbstractCommand | riscv-tools/riscv-isa-sim/riscv/debug_module.cc:326-400 | when a command starts, what it is made to execute, and each error otherwise |
| DebugModule.Module.DmiRead | riscv-tools/riscv-isa-sim/riscv/debug_module.cc:202-324 | the value and the side effects of every register read |
| DebugModule.Module.DmiWrite | riscv-tools/riscv-isa-sim/riscv/debug_module.cc:402-474 | the side effects of every register write, resets of processors included, and which addresses take one |
| DebugModule.Module.Store | riscv-tools/riscv-isa-sim/riscv/debug_module.cc:111-171 | the stores by which harts report, and which stores are refused |
| DebugModule.ErrorStays | riscv-tools/riscv-isa-sim/riscv/debug_module.cc:402-474 | a non-zero cmderr changes only by write-one-to-clear or by reset |
| DebugModule.BusyRises | riscv-tools/riscv-isa-sim/riscv/debug_module.cc:326-400 | busy rises only for the debugger, without an error, with the selected hart halted, together with its GO flag and the code of the command |
| DebugModule.BusyFalls | riscv-tools/riscv-isa-sim/riscv/debug_module.cc:111-171 | busy falls if and only if the selected hart, not to go any more, reports that it is halted, or by reset |
| DebugModule.BusyKeepsBuffers | riscv-tools/riscv-isa-sim/riscv/debug_module.cc:202-474 | while busy no debugger access changes data, program buffer or code |
| DebugModule.DataRegistersByReset | riscv-tools/riscv-isa-sim/riscv/debug_module.cc:19-64 | a new module has no data registers until its first reset |
| DebugModule.CodeTransfers | riscv-tools/riscv-isa-sim/riscv/debug_module.cc:345-387 | the generated word decodes to the load or store of the selected register at the data area |
| DebugModule.ErrorHeld | riscv-tools/riscv-isa-sim/riscv/debug_module.cc:111-474 | over every run an error is held until cleared or reset |
| DebugModule.BuffersHeld | riscv-tools/riscv-isa-sim/riscv/debug_module.cc:111-474 | over every run, busy all along, only the hart's own stores change the buffers |
| DebugModule.ExecutedOnce | riscv-tools/riscv-isa-sim/riscv/debug_module.cc:111-474 | with a debugger that, while a command is outstanding, writes dmcontrol only with dmactive set, the same hart selected, and no ndmreset in the middle of the command, every accepted command is executed exactly once before busy falls, in every interleaving with all harts and their interrupts |
| DebugModule.ControlInvIff | riscv-tools/riscv-isa-sim/riscv/debug_module.cc:432-454 | a write of dmcontrol, with its reset of the selected processor, keeps the invariant of that theorem if and only if the debugger was careful in this sense |
| DebugModule.ControlSafeIff | riscv-tools/riscv-isa-sim/riscv/debug_module.cc:432-454 | whatever the harts do after a write of dmcontrol while busy, no command runs twice or is called done too early, if and only if the debugger was careful or selected a hart that does not exist once the command had been taken up |
| DebugModule.CarelessRunsTwice | riscv-tools/riscv-isa-sim/riscv/debug_module.cc:147-150 | a whole run from a new module with two harts, careful but for one write of dmcontrol, in which one command is executed twice |
| DebugModule.ResetAbandons | riscv-tools/riscv-isa-sim/riscv/debug_module.cc:451-453 | a whole run from a new module with one hart, careful but for a write of dmcontrol for the same hart with ndmreset, in which a command is taken for done that was abandoned |
| DebugModule.RestartsCounted | riscv-tools/riscv-isa-sim/riscv/debug_module.cc:443-454 | the module resets a processor at exactly those writes of dmcontrol that select it, if it exists, with dmactive and ndmreset set |
| DebugHistory.HartMeans | riscv-tools/riscv-isa-sim/riscv/debug_module.cc:147-164 | after every history a hart counts as halted if that was its last report, as acknowledged if it reported to resume since it was last asked to, and is told to resume and to halt as last asked |
| DebugHistory.ControlMeans | riscv-tools/riscv-isa-sim/riscv/debug_module.cc:432-442 | dmcontrol holds the last value written since the last reset |
| DebugHistory.AutoMeans | riscv-tools/riscv-isa-sim/riscv/debug_module.cc:465-470 | abstractauto too; and there are data registers once the module was reset |
| DebugRegisters.DmstatusMeans | riscv-tools/riscv-isa-sim/riscv/debug_module.cc:248-295 | dmstatus bit by bit: halted, running, nonexistent, acknowledged, version |
| DebugRegisters.DmcontrolMeans | riscv-tools/riscv-isa-sim/riscv/debug_module.cc:234-247 | dmcontrol bit by bit |
| DebugRegisters.AbstractcsMeans | riscv-tools/riscv-isa-sim/riscv/debug_module.cc:296-301 | abstractcs field by field: error, busy, the numbers of data and program words |
| DebugRegisters.AbstractautoMeans | riscv-tools/riscv-isa-sim/riscv/debug_module.cc:302-305 | abstractauto reads back what was written to its fields |
| DebugRegisters.HartinfoMeans | riscv-tools/riscv-isa-sim/riscv/debug_module.cc:309-314 | hartinfo |
| DebugRegisters.AnswersIff | riscv-tools/riscv-isa-sim/riscv/debug_module.cc:202-324 | which addresses answer a read, and which take a write |
| DebugCommands.WordWritten | riscv-tools/riscv-isa-sim/riscv/debug_module.cc:402-428 | a data or program word written while no command executes is there, and no other word changes |
| DebugCommands.WordKept | riscv-tools/riscv-isa-sim/riscv/debug_module.cc:202-474 | nothing else that the debugger does changes a word |
| DebugCommands.ReadBack | riscv-tools/riscv-isa-sim/riscv/debug_module.cc:202-428 | over every history: what was written to a word is what is read from it until it is written again or harts store to the buffers, and all ones while a command executes |
| DebugCommands.HartDataShown | riscv-tools/riscv-isa-sim/riscv/debug_module.cc:122-125 | a word that a hart stores to the data area is the register of that number |
| DebugCommands.HartProgramShown | riscv-tools/riscv-isa-sim/riscv/debug_module.cc:127-132 | the same for the program buffer |
| DebugCommands.StartsIff | riscv-tools/riscv-isa-sim/riscv/debug_module.cc:326-400 | a command starts if and only if a write of the command register or an access with its autoexec bit attempts it, no error stands, the selected hart is halted, and the command is a register access with a possible transfer |
| DebugCommands.ErrorMeans | riscv-tools/riscv-isa-sim/riscv/debug_module.cc:202-474 | which error every access and store sets, and that all others set none |
| DebugCommands.ErrorCleared | riscv-tools/riscv-isa-sim/riscv/debug_module.cc:461-463 | a write of abstractcs clears exactly the error bits that it names |
| JtagDtm.EdgeFits | riscv-tools/riscv-isa-sim/riscv/jtag_dtm.cc:74-110 | the data register stays as wide as it was captured, in every state |
| JtagDtm.ShiftRest | riscv-tools/riscv-isa-sim/riscv/jtag_dtm.cc:77-79 | n clocks shift n bits in above and put the n captured bits out, lowest first |
| JtagDtm.ScanRoundTrip | riscv-tools/riscv-isa-sim/riscv/jtag_dtm.cc:53-180 | a full scan: out comes the captured register, and update sees exactly the bits sent |
| JtagDtm.DbusAccess | riscv-tools/riscv-isa-sim/riscv/jtag_dtm.cc:146-180 | the debug module sees exactly the operation, data and address that were scanned in |
| JtagDtm.DbusRead | riscv-tools/riscv-isa-sim/riscv/jtag_dtm.cc:146-180 | the next scan returns the register's value, the address and success, or failure |
| JtagDtm.DbusWrite | riscv-tools/riscv-isa-sim/riscv/jtag_dtm.cc:146-180 | a write reaches its register, and the next scan says whether there is one |
| JtagDtm.SelectsInstruction | riscv-tools/riscv-isa-sim/riscv/jtag_dtm.cc:81-100 | an instruction scan: the former instruction comes out, the one sent is selected, and nothing else of the port moves |
| JtagDtm.ShiftRestIr | riscv-tools/riscv-isa-sim/riscv/jtag_dtm.cc:81-84 | n clocks shift n instruction bits in and put the former ones out |
| JtagDtm.FiveOnesReset | riscv-tools/riscv-isa-sim/riscv/jtag_dtm.cc:54-71 | five clocks with TMS high reach test-logic-reset from every state and select the identification register |
| JtagDtm.ConnectedReady | riscv-tools/riscv-isa-sim/riscv/jtag_dtm.cc:54-110 | from every state, five clocks with TMS high, one low and an instruction scan bring the port to the debug bus, where the accesses above apply |
| JtagScans.ShiftQueue | riscv-tools/riscv-isa-sim/riscv/jtag_dtm.cc:77-79 | shifting any number of bits through the data register: a queue |
| JtagScans.ShiftQueueIr | riscv-tools/riscv-isa-sim/riscv/jtag_dtm.cc:81-84 | the same for the instruction register |
| JtagScans.PausedScan | riscv-tools/riscv-isa-sim/riscv/jtag_dtm.cc:54-71 | a data scan with a pause of any length brings out the same bits and ends the same |
| JtagScans.PausedInstruction | riscv-tools/riscv-isa-sim/riscv/jtag_dtm.cc:54-71 | the same for an instruction scan |
| JtagScans.BackToBack | riscv-tools/riscv-isa-sim/riscv/jtag_dtm.cc:54-71 | a scan may follow at once |
| JtagScans.EmptyScan | riscv-tools/riscv-isa-sim/riscv/jtag_dtm.cc:54-71 | a data scan of no bits leaves what was captured |
| JtagScans.FormerPins | riscv-tools/riscv-isa-sim/riscv/jtag_dtm.cc:74-120 | a rising clock acts on the TMS and TDI of the call before, and no other call acts at all |
| JtagScans.IdentificationRead | riscv-tools/riscv-isa-sim/riscv/jtag_dtm.cc:126-129 | after five clocks with TMS high and one low, a scan of 32 bits reads 0xdeadbeef and leaves the debug module alone |
| JtagScans.ControlRead | riscv-tools/riscv-isa-sim/riscv/jtag_dtm.cc:130-133 | with instruction 0x10 it reads version 1 and the number of address bits, which is the length of a debug-bus scan less 34 |
| JtagScans.OtherRead | riscv-tools/riscv-isa-sim/riscv/jtag_dtm.cc:138-140 | any other instruction passes the register of the last capture through |
| JtagScans.BusRead | riscv-tools/riscv-isa-sim/riscv/jtag_dtm.cc:146-180 | the bits of a read and of the reply that the next scan brings: status, value, address |
| JtagScans.BusWrite | riscv-tools/riscv-isa-sim/riscv/jtag_dtm.cc:146-180 | the same for a write |
| JtagScans.BusNothing | riscv-tools/riscv-isa-sim/riscv/jtag_dtm.cc:146-180 | operations 0 and 3 do nothing |
| JtagDtm.Port.constructor | riscv-tools/riscv-isa-sim/riscv/jtag_dtm.cc:40-47 | the initial state, with the registers that the source leaves unset given |
| JtagDtm.Port.SetPins | riscv-tools/riscv-isa-sim/riscv/jtag_dtm.cc:53-121 | set_pins is the pin function that the scans are built from |
| JtagDtm.Port.Update | riscv-tools/riscv-isa-sim/riscv/jtag_dtm.cc:146-180 | update serves one access of the debug module |
| WideWords.AddCarryM | riscv-tools/riscv-isa-sim/softfloat/s_addCarryM.c:44-68 | a + b + carry = z + out * 2^(32n) for every n, also in place |
| WideWords.AddComplCarryM | riscv-tools/riscv-isa-sim/softfloat/s_addComplCarryM.c:44-68 | a + (2^(32n) - 1 - b) + carry = z + out * 2^(32n), also in place |
| WideWords.NegXM | riscv-tools/riscv-isa-sim/softfloat/s_negXM.c:43-61 | z becomes (-z) mod 2^(32n) |
| WideWords.SubtractBothWays | riscv-tools/riscv-isa-sim/softfloat/s_addComplCarryM.c:44-68 | complement-addition with carry gives the same words as negation and addition, those of the difference modulo 2^(32n), and its carry says that nothing was borrowed |
| WideWords.Mulhu | riscv-tools/riscv-isa-sim/riscv/mulhi.h:8-27 | the floor of a * b / 2^64; no intermediate result leaves its word |
| WideWords.Mul64To128 | riscv-tools/riscv-isa-sim/softfloat/s_mul64To128.c:43-64 | both halves of the exact product, so its high half is mulhu |
| WideWords.Mulh | riscv-tools/riscv-isa-sim/riscv/mulhi.h:29-34 | the floor of the signed product by 2^64, the least integer included |
| WideWords.Mulhsu | riscv-tools/riscv-isa-sim/riscv/mulhi.h:36-41 | the floor of the mixed product by 2^64 |
| SoftFloat.MagDetermines | riscv-tools/riscv-isa-sim/softfloat/f32_roundToInt.c:44-109 | a finite number is determined by sign and magnitude, so the contracts below fix the result bits |
| SoftFloat.MidRight | riscv-tools/riscv-isa-sim/softfloat/f32_roundToInt.c:85-102 | mask rounding of the raw bits is correct rounding, with ties to even and with the carry into the exponent |
| SoftFloat.SmallRight | riscv-tools/riscv-isa-sim/softfloat/f32_roundToInt.c:59-79 | the five modes below 1.0 |
| SoftFloat.RoundedBitsRight | riscv-tools/riscv-isa-sim/softfloat/f32_roundToInt.c:85-99 | the bit operations give the multiple of 2^m that the mode asks for, and change nothing exactly if nothing is lost |
| SoftFloat.Flags.RoundToInt | riscv-tools/riscv-isa-sim/softfloat/f32_roundToInt.c:44-109 | for every non-NaN and each mode: the correctly rounded integral value with the sign kept; inexact exactly if asked for and something was lost |
| SoftFloat.Flags.RoundSmall | riscv-tools/riscv-isa-sim/softfloat/f64_roundToInt.c:59-79 | the first branch, for both formats |
| SoftFloat.Flags.RoundMiddle | riscv-tools/riscv-isa-sim/softfloat/f64_roundToInt.c:85-102 | the last branch, for both formats |
| SoftFloat.TruncatedBy | riscv-tools/riscv-isa-sim/softfloat/f64_to_i32_r_minMag.c:86-87 | the shifted significand is the integer part, and is exact if and only if the number is integral |
| SoftFloat.F64Large | riscv-tools/riscv-isa-sim/softfloat/f64_to_i32_r_minMag.c:69-82 | at 2^31 and above: the one range of values that still truncates to the least integer, and invalid for the rest |
| SoftFloat.F32Large | riscv-tools/riscv-isa-sim/softfloat/f32_to_i32_r_minMag.c:70-77 | at 2^31 and above: the least integer, and invalid for the rest |
| SoftFloat.Flags.F64ToI32 | riscv-tools/riscv-isa-sim/softfloat/f64_to_i32_r_minMag.c:43-94 | the truncated value if it fits, else invalid with the saturated one; inexact as asked |
| SoftFloat.Flags.F32ToI32 | riscv-tools/riscv-isa-sim/softfloat/f32_to_i32_r_minMag.c:43-87 | the same for singles |
| SoftFloat.ConversionAgrees | riscv-tools/riscv-isa-sim/softfloat/f32_to_i32_r_minMag.c:43-87 | converting agrees with rounding to integral in minMag mode first, which is then exact |
| SoftFloat.CountLeadingZeros32 | riscv-tools/riscv-isa-sim/softfloat/s_countLeadingZeros32.c:45-60 | the position of the leading one; 32 for zero |
| SoftFloat.I32ToF64 | riscv-tools/riscv-isa-sim/softfloat/i32_to_f64.c:42-64 | the double is exactly the integer |
| SoftFloat.IntegerRoundTrip | riscv-tools/riscv-isa-sim/softfloat/i32_to_f64.c:42-64 | it converts back to the integer without any exception |
| SoftFloat.QuotientOf | riscv-tools/riscv-isa-sim/softfloat/f32_div.c:113-128 | the significand lies in [2^30, 2^31) and decides like the exact quotient, for every mode and every rounding position |
| SoftFloat.Sticky | riscv-tools/riscv-isa-sim/softfloat/f32_div.c:127-128 | one sticky bit, set only when the low six bits are zero, is enough for that |
| Scheduler.Sim.Step | riscv-tools/riscv-isa-sim/riscv/sim.cc:86-106 | the loop ends; the state after N steps in all is the closed form of N |
| Scheduler.Sim.Once | riscv-tools/riscv-isa-sim/riscv/sim.cc:88-104 | one pass advances by at least one step and at most the rest of the turn |
| Scheduler.Rounds | riscv-tools/riscv-isa-sim/riscv/sim.cc:86-106 | in rounds, turns and steps: each share is q * 5000 plus a full turn, a part of one, or nothing |
| Scheduler.AllGiven | riscv-tools/riscv-isa-sim/riscv/sim.cc:86-106 | all shares add up to N |
| Scheduler.Fair | riscv-tools/riscv-isa-sim/riscv/sim.cc:86-106 | no processor is ever more than one turn ahead of another |

## Left out

- CoreList.MergeSort: `insize` is a mathematical integer; the source's int would overflow only for lists of 2^30 cells and more.
- CoreBench.BenchList: the list is given; building it in `core_list_init` and the carving of its memory are not modelled beyond the indices it gives, nor are the two workloads of `calc_func`, whose results and checksums are parameters. What the uninitialised data of the wanted payload holds if the search makes no round is a parameter too.
- Walk.DoWalk: page tables and memory are fixed during a walk; the builds with RISCV_ENABLE_DIRTY, where the walk sets accessed and dirty bits, and with RISCV_ENABLE_MISALIGNED are not modelled.
- Walk.WalkSucceedsIff: for the bare mode, Sv32, Sv39 and Sv48, the modes that a write of satp accepts; the levels that `decode_vm_info` names for Sv57 and Sv64 cannot be selected.
- Tlb.RunExactIff: needs one mode for fetches and data (MPRV clear, or set with the same effect) at each access, and page tables that do not change between flushes; what is stored in memory is not followed, only where each access goes and what it returns at that moment. Processor resets are treated by Tlb.ResetKeepsInvIff instead.
- The instruction cache behind `access_icache`, atomic operations and the trap handling that follows a fault.
- Decoder.DecodeInsn: the table of generated instructions is a parameter; chaining through extensions and disassembly are not modelled.
- CacheSim.SetAssociative.Access: the counters and the shift register are mathematical; the source's 64-bit counters wrap. The victim is any slot of the set, so the register's period does not matter. At least one way is required, which the source does not check. The copy constructor, which copies neither counters nor register, is not modelled.
- CacheSim.FullyAssociative.Access: the victim is any line held, not the one that the register picks in the order of the map.
- CacheSim.CallsCount: the level below is the record of the calls it receives, as if a miss handler is always set and belongs to this cache alone. Reading the configuration string and printing statistics are not modelled.
- MemIf.Memif.Read: addresses are inside the memory, so that none wraps past 2^64; the width of a hex writer's lines is a power of two that divides its base address, so that aligned addresses are whole lines. The typed accessors of `memif_t` are not modelled.
- HexWriter.Hexwriter.WriteChunk: printing the lines is not modelled.
- Dtm.Dtm.ReadChunk: one caller at a time and a hart that answers every command in finitely many polls; threads, the request queue, halting and resuming appear as single steps. The target is that of the debug specification, not the module and the debug ROM of `debug_module.cc`. Commands are proved to raise no error here, so that `die`, which prints a message, clears the error and goes on, is never reached.
- Dtm.Dtm.ClearChunk: needs two data registers even with XLEN 32, because the source writes data1 then too.
- Dtm.Dtm.RunAbstractCommand: registers of the debug module interface are named, not addressed by number.
- Access to control and status registers (`modify_csr` builds its program with the upper half OR-ed in without a shift), `get_xlen`, `idle` timing and target reset in `dtm.cc`.
- DebugModule.Module.Store: hart ids in the stores that report halting and resuming are below 1024, the length of the flag arrays; the source does not check them.
- DebugModule.ExecutedOnce: harts follow the debug ROM as a state machine of nine program points; the ROM's contents and `load` from it are not modelled. A reset of a processor (`ndmreset`) takes it out of the ROM, and what else it clears is not modelled. A command counts as executed when its hart enters the ROM again or takes a trap, so one that leaves through `dret` is executing until then. Software outside debug mode, and the programs of commands, are assumed to store to the module above its exception address only, that is, to its program and data areas: a store of theirs to the words of the ROM's protocol would pass for a report of a hart, and the module does not check where it comes from.
- JtagDtm.ScanRoundTrip: scans of exactly the register's length; JtagScans.ShiftQueue treats the shifts of all the others.
- SoftFloat.Flags.RoundToInt: NaN inputs, which go through propagateNaN.
- SoftFloat.QuotientOf: the significand computation of `f32_div` only; its special cases, the normalisation of subnormal operands and the rounding in roundPackToF32 are not modelled. Rounding is stated of the exact quotient at the position where that routine cuts.
- SoftFloat.CountLeadingZeros32: the 256-entry table is its meaning by comparisons.
- WideWords.AddCarryM: words lie least first, as on a little-endian host.
- Scheduler.Sim.Step: what a processor does in its steps, `yield_load_reservation`, and the switch to the host context are not modelled.
- Chained triggers: the source never clears its chain flag, so there are no chain semantics.
- Triggers.NapotMeans: ranges of more than 2^30 values are left out, because the source builds their mask by shifting an int, for which C gives no meaning.
- Accesses.TriggerMatchIff: what a trigger compares is a function given to it; Triggers.FiresOn makes one for each match type. The action of a trigger and the fields of tdata1 that choose it are not modelled.
- CoreList.CalcFunc: `crcstate` and `crcmatrix`, which keep the first non-zero result of each workload, are not modelled.
- Sockets, terminals, files, system calls, the interactive console, device trees, Dhrystone and the GPIO demonstration.
- SoftFloat routines beyond those above (square roots, remainders, multiply-add, double division), whose error bounds rest on tables.
