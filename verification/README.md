# NVMeVirt: a verified model of its device back ends

NVMeVirt is a Linux kernel module that presents a software-defined NVMe device. This project models the parts of it
that decide where data goes and when a command completes, and proves them in Dafny 4.11.
`dafny verify dfyconfig.toml` checks everything.

The project follows the program:

- **Page-mapped FTL** (`conv_ftl.c`, `pqueue/pqueue.c`, the geometry of `ssd.c`). `Geometry` derives the sizes of the
  device and shows that page indexes, write order and the scan order of garbage collection each enumerate every page
  once. `NandArray` holds page statuses with exact block counters. `VictimQueue` is the indexed binary heap of
  victim lines. `FtlModel`, `FtlSteps`, `FtlGc`, `FtlRuns` and `FtlLaws` treat the FTL as a value: mapping
  tables, line lists, write pointers and write credits. Every page also carries the value last programmed into it, so
  that "what the host reads" has a meaning and garbage collection can be shown to preserve it. `FtlTight` and `FtlExact`
  settle when garbage collection gets stuck and when the free lines run out; the latter works on `FtlOccupancy`, which
  abstracts the state to the logical pages on each line, `FtlBatches` and `FtlBoard`. `FtlTie`, `FtlScan` and
  `ConvFtl` are the imperative side: the class `ConvFtl` has the arrays, lists, counters and heap of `struct conv_ftl`,
  and each method is proved against the step of the model it performs; the `NVMEV_ASSERT`s and `check_addr`s on the
  write and GC paths are assertions or preconditions that are proved, except the two in `mark_block_free` that compare
  the sizes `nsecs` and `npgs` with the constants they were initialised from, and the one of `buffer_allocate`
  (`ssd.c:23`) on the size of the request, since the write buffer is not part of this model. `Striping` and `ConvIo`
  spread requests over partitions.
- **Request queue** (`io.c`). `QueueModel` is the queue of one I/O worker as a state machine whose atomic dispatcher and
  worker steps interleave in any order under a clock that only advances, with a log of every transfer of data and every
  completion; `QueueRuns` and `QueueSweep` prove safety over every run and what an undisturbed sweep achieves,
  `QueueProgress` what the worker achieves in any interleaving.
  `WorkQueue` is the statically allocated array with its two index-linked lists. `PrpModel` and `PrpIo` are the two data transfer paths.
- **Bandwidth model** (`channel_model.c`, `ssd.c`). `Credits` is the ledger of credits for each absolute time slot;
  `ChannelModel` is the circular array that stands for it. `NandTiming` occupies LUNs and channels.
- **KV mapping table** (`kv_ftl.c`, `append_only.c`). `KvModel` is the chained hash table as a value, `KvStore` the
  storage behind it and what stores do to the values in it, `KvFtl` the table, the allocator and the store, retrieve
  and exist commands.
- **Zones** (`zns_ftl.h`, `zns_mgmt_send.c`, `zns_read_write.c`). `ZnsModel` gives the effect of each command on one
  zone, `ZnsRuns` puts the zones and whole command sequences together, `ZnsFills` tells which devices lose ZRWA resources,
  `ZnsFtl` is the code that updates descriptors and counters in place.

`Arith`, `Counting` and `Wrappers` are small helpers.

## Where the code does less than it seems to promise

- The free list can run out. `get_next_free_line` then returns NULL, and `advance_write_pointer` uses it as a line
  (`conv_ftl.c:266-270`): the kernel follows a null pointer, in the middle of garbage collection or of a host write. This
  never happens in a run over at most (`tt_lines` - 4) * `pgs_per_line` local pages of a partition, and it does happen in
  some run over one page more (`FtlExact.FreeLinesExact`), while the range check of `conv_write` lets a host write all
  `tt_pgs` of them. The statement is for lines of five pages or more; smaller lines may last longer, but never until the
  pages of all lines but one have been written (`FtlExact.FreeLinesBetween`, `FtlTight.SequentialFails`).
- A forced garbage collection finds a victim as long as fewer than (`tt_lines` - 4) * `pgs_per_line` local pages are ever
  written, and this bound is exact too (`FtlTight.BoundIsExact`). A forced collection without a victim grants the last
  refill amount again and goes on (`FtlRuns.ReplenishGoing`).
- The credit ring computes the distance between two requests in 32 bits. After 2^32 idle slots (about 4.8 hours) its
  entries stand for the wrong slots unless nothing was granted from the wrapped offset on (`ChannelModel.AdvanceExact`,
  `Credits.GrantReappears`).
- The DMA path does not add the start of the namespace to the device address, unlike the page-by-page path
  (`PrpModel.DmaMovesTheSameBytes`).
- With ZRWA the write pointer can pass the end of its zone. It never does if and only if `zone_size % zrwafg_size` is at
  most `zrwa_size`, or the write unit is too coarse to write what is left, or no zone can be opened with ZRWA
  (`ZnsRuns.BoundaryErrorExact`).
- Both configured ZNS devices have no ZRWA, but the total of the ZRWA resource is the number of zones, so zones can be
  opened with ZRWA. Flushing LBA 0, or writing it, then divides by zero (`ZnsRuns.DivideErrorExact`,
  `ZnsRuns.FlushDivides`, `ZnsRuns.WriteDivides`).
- The ZRWA resource counter is the number of zones that hold a ZRWA if and only if no write has filled one of them
  (`ZnsRuns.RunKeepsZones`). `ZnsFills.FillsExact` tells on which devices some write does, for example on one whose
  ZRWA is as large as a zone (`ZnsRuns.FilledZoneKeepsZrwa`).
- A KV update that outgrows the stretch its key was given runs into whatever lies behind it. It changes no other value
  if and only if no other key's non-empty extent lies there (`KvStore.UpdateBeyondStretch`,
  `KvStore.GrowingUpdateOverwrites`).
- `ASSERT` of `nvmev.h` expands to nothing, so the release of a zone resource is not checked at run time; the model
  proves that it never finds a counter at zero.
- A request is dropped without a completion when only one entry of the work queue is free
  (`io.c:302-305`, `QueueSweep.LastEntryDropped`).
- When as many keys are stored as the KV mapping table has slots, the probing loop of an insert does not end
  (`KvModel.FreeSlotExact`).

## Model

| member | source | states |
|---|---|---|
| `Geometry.InitParams` | ssd.c:68-172 | The derived sizes meet every identity the address code relies on (the result type says which); a page is 4 KiB in whole sectors and flash and oneshot pages are as large as configured; the configured one of number and size of the blocks is used and the other is the least that covers the share of the capacity, a block has no more oneshot pages than it takes, and the pages hold at least the share; the channels are divided among the partitions. |
| `Geometry.PgIdxInverse` | conv_ftl.c:37-51 | `ppa2pgidx` maps valid addresses into [0, `tt_pgs`), so its assertion holds, and the address can be recovered from the index. |
| `Geometry.PgIdxOnto` | conv_ftl.c:37-51 | Every index in [0, `tt_pgs`) is the index of a valid address: with the row above, a bijection. |
| `Geometry.WriteOrderInverse` | conv_ftl.c:215-281 | Write order gives every page of a line a different number below `pgs_per_line`. |
| `Geometry.WriteOrderOnto` | conv_ftl.c:215-281 | Every number below `pgs_per_line` is the number of a page of the line. |
| `Geometry.WriteOrderExact` | conv_ftl.c:215-281 | Page n in write order in numbers: oneshot pages go round the channels first, then round the LUNs, then up the blocks. |
| `Geometry.NextPositionStep` | conv_ftl.c:223-247 | One advance of the counters goes to the next page in write order, and reports a used-up line after its last page and only then; so a line is written exactly once over before the next one. |
| `Geometry.ScanOrderInverse` | conv_ftl.c:773-807 | The GC loop nest visits every page of the victim line. |
| `Geometry.ScanOrderOnto` | conv_ftl.c:773-807 | It visits each page once: positions of the scan and pages correspond one to one. |
| `Geometry.ScanOrderExact` | conv_ftl.c:773-807 | Page k of the scan in numbers: flash pages go round the LUNs of a channel first, then round the channels, then up the blocks. |
| `Geometry.LineSize` | ssd.c:148-158 | The size of a line factors both in write order (wordline, LUN, channel) and in scan order (flash page, channel, LUN), and the lines make up the device. |
| `NandArray.Nand.constructor` | ssd.c:174-222 | All pages start free and all block counters are exact. |
| `NandArray.Recounted` | conv_ftl.c:488-512 | Changing one page status and the counters of its block keeps the counters of all blocks equal to the numbers of valid and invalid pages in them. |
| `NandArray.BlockBounds` | conv_ftl.c:499-509 | The bounds that the assertions on `vpc` and `ipc` of a block check follow from the counters being exact. |
| `NandArray.ErasedCounted` | conv_ftl.c:558-577 | Freeing the pages of one block and zeroing its counters keeps the counters of all blocks exact. |
| `NandArray.Nand.MarkPageValid` | conv_ftl.c:535-550 | Exactly one page becomes valid; block counters stay exact. |
| `NandArray.Nand.MarkPageInvalid` | conv_ftl.c:488-512 | Exactly one page becomes invalid; block counters stay exact. |
| `NandArray.Nand.MarkBlockFree` | conv_ftl.c:558-577 | The pages of the block become free and no others change; only its erase count goes up, by one. |
| `VictimQueue.RootIsMinimum` | pqueue/pqueue.c:170-178 | In an ordered heap no element has a smaller priority than the root. |
| `VictimQueue.CapacitySuffices` | pqueue/pqueue.c:114-121 | A heap over n elements never holds more than n of them, and fewer while one is outside: the "need more space" case of an insert does not arise. |
| `VictimQueue.PQueue.constructor` | pqueue/pqueue.c:14-42 | An empty heap over lines whose position is 0. |
| `VictimQueue.PQueue.BubbleUp` | pqueue/pqueue.c:56-71 | From a heap that is in order except above one slot: order, back indexes and the element set are restored, nothing gained or lost. |
| `VictimQueue.PQueue.MaxChild` | pqueue/pqueue.c:73-85 | 0 exactly for a leaf, otherwise the child with the least priority. |
| `VictimQueue.PQueue.PercolateDown` | pqueue/pqueue.c:87-102 | From a heap that is in order except below one slot: order, back indexes and the element set are restored. |
| `VictimQueue.PQueue.Insert` | pqueue/pqueue.c:104-129 | The element set grows by exactly the new element; order and back indexes are kept; the capacity is not exceeded. |
| `VictimQueue.PQueue.ChangePriority` | pqueue/pqueue.c:131-142 | One priority changes; the element set, order and back indexes are kept. |
| `VictimQueue.PQueue.Remove` | pqueue/pqueue.c:144-154 | The heap loses exactly that element, which keeps its stale position. |
| `VictimQueue.PQueue.Peek` | pqueue/pqueue.c:170-178 | An element of least priority, none exactly when the heap is empty. |
| `VictimQueue.PQueue.Pop` | pqueue/pqueue.c:156-168 | Removes an element of least priority; its position stays 1 until the caller resets it. |
| `VictimQueue.PQueue.Forget` | conv_ftl.c:519-524 | Resetting `pos` completes a removal: position 0 again means "not in the heap", exactly. |
| `VictimQueue.PQueue.Take` | conv_ftl.c:645-664 | Pop and reset: the least element leaves, all others stay. |
| `VictimQueue.PQueue.SetIdlePriority` | conv_ftl.c:525-531 | Writing the counter of a line outside the heap does not disturb the heap. |
| `FtlSteps.ValidPageCounters` | conv_ftl.c:499-517 | A line with a valid page has `vpc` in (0, `pgs_per_line`] and `ipc` below `pgs_per_line`, with their sum bounded; a full line has no invalid page. |
| `FtlSteps.FullLines` | conv_ftl.c:514-531 | The lines with `vpc == pgs_per_line` are exactly those on the full list, which the test in `mark_page_invalid` takes for granted. |
| `FtlSteps.ClosedLineCounters` | conv_ftl.c:249-265 | A used-up line with a page fewer than `pgs_per_line` valid has an invalid page. |
| `FtlSteps.InvalidateMaps` | conv_ftl.c:488-533 | Invalidating a page keeps the two tables inverse on the valid pages, apart from the logical page that is about to be rewritten. |
| `FtlSteps.PutSpace` | conv_ftl.c:983-997 | A page write uses up exactly one page of the space that is left in the open lines and the free ones, and one of the pages that its write pointer could write. |
| `FtlSteps.RoomMeansFreeLine` | conv_ftl.c:168-182 | A line that this write uses up has a free successor, so that `get_next_free_line` does not return NULL, if and only if its write pointer could write a second page. |
| `FtlSteps.SpaceMeansRoom` | conv_ftl.c:168-182 | With more than two lines of space left, some line is free and both write pointers have room for more than a line. |
| `FtlSteps.PutCore` | conv_ftl.c:598-615 | A host or GC page write keeps every line in one list, all line counters exact and the tables inverse. |
| `FtlSteps.PutRead` | conv_ftl.c:983-997 | A page write changes what one logical page reads, and nothing else. |
| `FtlGc.CopyBackCore` | conv_ftl.c:693-740 | Handling one page of the victim keeps the invariant with the scan one page further, although the page stays `PG_VALID` and its reverse entry stale. |
| `FtlGc.CopyAll` | conv_ftl.c:773-807 | Scanning any set of pages of the victim moves each valid one, uses one page of space and of room for each, and keeps all contents, as long as GC finds a free line behind every line it fills. |
| `FtlGc.FullScanMovesVpc` | conv_ftl.c:773-807 | A scan of the whole line moves exactly `vpc` pages. |
| `FtlGc.FreeLineCore` | conv_ftl.c:742-751 | Freeing the scanned line restores the invariant between page writes, and nothing is mapped into the line any more. |
| `FtlGc.Gc` | conv_ftl.c:753-813 | `do_gc` keeps what every logical page reads, moves the pages of the victim out of it and leaves all other mappings alone, gains `ipc` pages of space and ends with the whole victim free; all it takes is room for the valid pages of the victim and one more. |
| `FtlLaws.TablesInverse` | conv_ftl.c:488-556 | A physical page is `PG_VALID` if and only if a logical page is mapped to it, and then `rmap` names that logical page. |
| `FtlLaws.MaptblInjective` | conv_ftl.c:26-35 | No two logical pages are mapped to the same physical page. |
| `FtlLaws.GcKeepsPages` | conv_ftl.c:753-813 | `do_gc` leaves the set of mapped logical pages and the total number of valid pages unchanged, and all mapped pages are on different physical pages afterwards. |
| `FtlRuns.HostWrite` | conv_ftl.c:971-1011 | The body of the write loop: one logical page reads the new value, every other mapping is untouched, one page of space and one credit are used. |
| `FtlRuns.ValidPagesAreMapped` | conv_ftl.c:488-556 | The valid pages of all lines together are as many as the logical pages that have been written. |
| `FtlRuns.LineCounts` | conv_ftl.c:110-146 | `free_line_cnt` + `full_line_cnt` + `victim_line_cnt` + the two open lines make up `tt_lines`. |
| `FtlRuns.VictimExists` | conv_ftl.c:645-667 | With at most two free lines and at most (`tt_lines` - 4) * `pgs_per_line` written pages, some closed line has an invalid page, unless exactly that many pages are written, exactly two lines are free and every valid page is on a full line. |
| `FtlRuns.RefillKeepsReserve` | conv_ftl.c:100-108 | Space minus write credits stays at least 2 * `pgs_per_line` + 1 through a refill: with a GC, without one, and after a stuck GC that leaves a third line of space. |
| `FtlRuns.ReplenishGoing` | conv_ftl.c:100-108 | Refilling the credits, with a GC, without one, or after a forced GC that found no victim (the last refill amount is then granted again), changes no reading, keeps the structure and takes no space. |
| `FtlRuns.SpaceFits` | conv_ftl.c:971-1013 | With 2 * `pgs_per_line` + 2 pages of space the next page write and the GC it causes find a free line behind every line they use up. |
| `FtlRuns.StuckHasSpace` | conv_ftl.c:645-667 | In an invariant state with at most (`tt_lines` - 4) * `pgs_per_line` written pages a forced GC finds no victim only if exactly that many are written, and then more than three lines of space are left. |
| `FtlRuns.WriteEffect` | conv_ftl.c:971-1013 | A page write in any state in which it does not run out of free lines, whatever the credits do and whichever victim is taken, changes one reading, uses at most one page of space, and keeps the reserve when few enough pages have been written. |
| `FtlRuns.DeviceExists` | conv_ftl.c:645-667 | For all sizes some rule picks a victim with the fewest valid pages at every step and some order scans each page of a line once, so that what is said about all of them says something. |
| `FtlRuns.PageWrite` | conv_ftl.c:971-1013 | One write of a run fails if and only if it or its GC uses up a line while no line is free; otherwise the structure is kept. |
| `FtlRuns.InitGoing` | conv_ftl.c:332-358 | The initial state meets the structural invariant when there are two lines, and nothing is mapped. |
| `FtlRuns.InitInv` | conv_ftl.c:332-358 | With at least five lines it has the reserve too. |
| `FtlRuns.Run` | conv_ftl.c:971-1013 | Every state of every run of page writes that has not failed is structurally sound, however many pages have been written and whichever victims are taken. |
| `FtlRuns.RunReads` | conv_ftl.c:971-1013 | Over every run that does not fail, with GC moving pages at any time and any victim among the equal ones at every step, every logical page reads the value last written to it. |
| `FtlRuns.RunNeverFails` | conv_ftl.c:971-1013 | A run over at most (`tt_lines` - 4) * `pgs_per_line` logical pages never fails: behind every used-up line there is a free line, also when a forced GC finds no victim. |
| `FtlTight.BoundIsTight` | conv_ftl.c:645-660 | Writing (`tt_lines` - 4) * `pgs_per_line` pages one after the other forces a GC at the last of them, and it finds no victim. |
| `FtlTight.BoundIsExact` | conv_ftl.c:645-667 | Every forced GC of every run over at most N logical pages finds a victim if and only if N is less than (`tt_lines` - 4) * `pgs_per_line`, whichever victims are chosen. |
| `FtlTight.SequentialFails` | conv_ftl.c:266-270 | On every device, with lines of any size, writing the pages of all lines but one in sequence takes a line from the empty free list at the last page. |
| `FtlOccupancy.OnSize` | conv_ftl.c:488-556 | The `vpc` of a line is the number of logical pages mapped into it. |
| `FtlOccupancy.VictimOcc` | conv_ftl.c:249-265 | A line is in the heap if and only if it is neither open nor free and holds fewer logical pages than fit. |
| `FtlOccupancy.HostWriteOcc` | conv_ftl.c:971-1011 | A page write moves its logical page to the line being written, advances the pointer, and does nothing else to the occupancy of the lines. |
| `FtlOccupancy.GcOcc` | conv_ftl.c:753-813 | GC of a line moves the logical pages on it, each once and in some order, to the line that GC writes to and, when that is used up, to the first free line, and appends the victim to the free list. |
| `FtlBatches.PutsBatch` | conv_ftl.c:215-281 | What a sequence of writes that ends within a line or at its end does to the occupancy. |
| `FtlBatches.Collects` | conv_ftl.c:100-108 | When a write uses up the credits and one line has fewer valid pages than all other victims, that line is collected, and the grant is the number of its invalid pages. |
| `FtlBatches.Exhausts` | conv_ftl.c:266-270 | When a write uses up the credits, no line is free and every victim holds more pages than GC has room for, the run fails. |
| `FtlBoard.CleanedShows` | conv_ftl.c:753-813 | GC within the line it writes to, on five lines while all others are full. |
| `FtlBoard.AcrossShows` | conv_ftl.c:753-813 | GC across the end of that line: one page stays behind, which one depends on the scan order. |
| `FtlExact.Reach8Next` | conv_ftl.c:971-1013 | One round of the failing run: the last free line is taken and given back, and host writes end a page earlier in their line, GC a page later, than the round before. |
| `FtlExact.ReachEnd` | conv_ftl.c:753-813 | After the last round GC uses up its line in the middle of a victim while no line is free. |
| `FtlExact.OneMoreFails` | conv_ftl.c:266-270 | On every device with five lines of five pages or more, some run over (`tt_lines` - 4) * `pgs_per_line` + 1 logical pages takes a line from the empty free list, whichever victims and scan order. |
| `FtlExact.FreeLinesExact` | conv_ftl.c:168-182 | When the free list runs out: no run over at most N logical pages takes a line from an empty free list if and only if N is at most (`tt_lines` - 4) * `pgs_per_line`, for lines of five pages or more. |
| `FtlExact.FreeLinesBetween` | conv_ftl.c:168-182 | For lines of any size: none does up to that bound, and some does from (`tt_lines` - 1) * `pgs_per_line` on. |
| `FtlScan.ScanListScansLine` | conv_ftl.c:773-807 | The loop nest of `do_gc` is an order that scans every page of the line once, as the GC theorems require. |
| `FtlScan.CopyToEnd` | conv_ftl.c:753-813 | Handling the pages in loop-nest order and then freeing the line is `Gc`. |
| `FtlScan.ScanStretch` | conv_ftl.c:693-740 | The pages of one flash page are consecutive in scan order. |
| `FtlTie.WpAdvances` | conv_ftl.c:215-247 | The write pointer's channel, LUN and page stand for the next page in write order. |
| `FtlTie.BlockErased` | conv_ftl.c:558-577 | Erasing the next block of the victim moves the boundary between erased and stale pages by one die. |
| `ConvFtl.ConvFtl.constructor` | conv_ftl.c:332-358 | The arrays represent the initial state of the model, which is sound, and with five lines has the reserve. |
| `ConvFtl.ConvFtl.SetMaptblEnt` | conv_ftl.c:31-35 | Exactly one entry of the mapping changes; the index assertion holds. |
| `ConvFtl.ConvFtl.SetRmapEnt` | conv_ftl.c:61-66 | Exactly one entry of the reverse mapping changes. |
| `ConvFtl.ConvFtl.GetNewPage` | conv_ftl.c:283-298 | The address under the write pointer is the model's next page, on plane 0. |
| `ConvFtl.ConvFtl.MarkPageValid` | conv_ftl.c:535-556 | Page, block and line counters change as in the model; its assertions hold. |
| `ConvFtl.ConvFtl.MarkPageInvalid` | conv_ftl.c:488-533 | The page becomes invalid and its line moves from the full list to the heap exactly when it was full; its assertions hold. |
| `ConvFtl.ConvFtl.GetNextFreeLine` | conv_ftl.c:168-182 | Takes the first free line; none exactly when the list is empty. |
| `ConvFtl.ConvFtl.MoveUsedLine` | conv_ftl.c:249-265 | A used-up line goes to the full list or the heap; its assertions hold. |
| `ConvFtl.ConvFtl.AdvanceWritePointer` | conv_ftl.c:215-281 | The write pointer advances as in the model; every range check and assertion holds. |
| `ConvFtl.ConvFtl.GcWritePage` | conv_ftl.c:598-643 | The logical page that `rmap` names for the old page is valid and is remapped to a new page with the same contents; a line that this uses up has a free successor, which is required exactly. |
| `ConvFtl.ConvFtl.SelectVictimLine` | conv_ftl.c:645-667 | A line of least `vpc` leaves the heap; none exactly when there is none, or without force when it is more than an eighth valid. |
| `ConvFtl.ConvFtl.CleanOneFlashpg` | conv_ftl.c:693-740 | All valid pages of a flash page are moved, none else. |
| `ConvFtl.ConvFtl.CleanDie` | conv_ftl.c:783-806 | One die's turn of the loop nest: its flash page is moved, and its block is erased after the last flash page. |
| `ConvFtl.ConvFtl.MarkLineFree` | conv_ftl.c:742-751 | The line's counters are zeroed and it joins the free list. |
| `ConvFtl.ConvFtl.CleanLine` | conv_ftl.c:773-807 | The whole loop nest does what the model's scan does. |
| `ConvFtl.ConvFtl.DoGc` | conv_ftl.c:753-813 | -1 exactly when there is no victim to take, otherwise the new state is `Gc` of the old one; the victim that may be taken must fit, without which the code follows a null pointer. |
| `ConvFtl.ConvFtl.CheckAndRefillWriteCredit` | conv_ftl.c:100-108 | The new state is the model's refill, with GC when it is due, and with the refill amount of the last GC when a forced GC finds no victim; a victim of a forced GC must fit. |
| `ConvFtl.ConvFtl.ConsumeWriteCredit` | conv_ftl.c:93-96 | One credit is used, and there was one: the unsigned counter does not wrap. |
| `ConvFtl.ConvFtl.UnmapPage` | conv_ftl.c:978-988 | A page written before is invalidated in both tables. |
| `ConvFtl.ConvFtl.WritePage` | conv_ftl.c:971-1013 | The loop body of `conv_write` on the real arrays, lists and heap, in every state in which no line is taken from an empty free list, also when a forced GC finds no victim: one logical page reads the new value and all others what they read before; the reserve is kept as long as few enough pages have been written. |
| `Striping.StripeInverse` | conv_ftl.c:976-977 | Partition and local page determine the logical page. |
| `Striping.StripeOnto` | conv_ftl.c:976-977 | Every local page of every partition is one logical page. |
| `Striping.LaneNext` | conv_ftl.c:873-879 | The pages one pass of the outer read loop visits are `nr_parts` apart and all in one partition. |
| `ConvIo.ReadLane` | conv_ftl.c:870-917 | The mapped pages of the request in one partition, in order, fall into consecutive groups of pages of one flash page; there is exactly one read for each group, at the address of its first page and of `pgsz` bytes for each page, and no two neighbouring reads are in the same flash page. |
| `ConvIo.ConvRead` | conv_ftl.c:833-923 | The request fails exactly when it ends beyond the tables; otherwise the commands are those of its lanes one after the other, at most `nr_parts` of them, lane j in the partition of page start + j with its reads merged as above, and they transfer `pgsz` for each mapped page of the request in total. |
| `ConvIo.PageIsRead` | conv_ftl.c:874-917 | Every page of the request that has been written is in the group of one of the commands, in its partition. |
| `ConvIo.SameFlashPageExact` | conv_ftl.c:824-831 | `is_same_flash_page` holds for two valid addresses if and only if their page indexes lie in the same run of `pgs_per_flashpg`. |
| `ConvIo.MappedPages` | conv_ftl.c:885-886 | A table entry is mapped if and only if its page has been written, and then it is a valid address: `valid_ppa` never skips a mapped page. |
| `ConvIo.WriteOne` | conv_ftl.c:976-1012 | A page write in one partition is a step of the model there and leaves all other partitions alone. |
| `ConvIo.ConvWrite` | conv_ftl.c:971-1013 | After the loop exactly the pages of the request read the new data, across all partitions, and all others read what they read before; required is only that no partition runs out of free lines on the way, whichever victims it takes. |
| `ConvIo.AllowedServes` | conv_ftl.c:971-1013 | It is enough that every partition has written no more local pages than GC can always make room for, the ones of the request included, or has space for all its pages; `ConvWrite` keeps this for the next request. |
| `QueueRuns.InsertPosSplits` | io.c:264-275 | The entries after the insertion point are later than both the new request and the clock; the one before it is not. |
| `QueueRuns.EnqueueInv` | io.c:248-388 | Accepting a request keeps the whole queue invariant, which says of every slot in flight that it counts as copied if and only if its request is an internal one or its data have been moved. |
| `QueueRuns.EnqueueSorted` | io.c:248-292 | The sorted insert keeps the list sorted by max(target, `latest_nsecs`). |
| `QueueRuns.ReclaimInv` | io.c:390-439 | Reclaiming keeps the whole queue invariant, wherever the worker's cursor is. |
| `QueueRuns.ReclaimedIsCompleted` | io.c:410-417 | A slot is taken back only after its request has been completed. |
| `QueueSweep.NextIsLive` | io.c:616-695 | From a live or reclaimed entry the cursor moves to a live entry, to a completed one, or off the list. |
| `QueueSweep.SortedLater` | io.c:622-624 | The list stays sorted when the clock in `latest_nsecs` advances. |
| `QueueSweep.UnfinishedEntry` | io.c:668-692 | The entry the worker may complete is in flight, belongs to a request that was never completed, and to that request only; the data of a host request have been moved. |
| `QueueSweep.CopiedEntry` | io.c:634-664 | The entry whose data the worker moves is in flight and belongs to a host request whose data have not been moved before. |
| `QueueSweep.FinishInv` | io.c:668-692 | Completing an entry keeps the invariant: the request is completed for the first time and not before its target. |
| `QueueSweep.WorkerStepInv` | io.c:616-695 | Every atomic step of the worker keeps the invariant. |
| `QueueSweep.InitInv` | io.c:740-762 | The initial queue meets the invariant. |
| `QueueSweep.Run` | io.c:294-695 | Every interleaving of dispatcher steps, worker steps and clock ticks keeps the invariant. |
| `QueueSweep.RunSafe` | io.c:294-695 | In every run: the lists partition the entries and one stays free; a request is completed or held in flight, never both and never lost; none is completed twice or early; off the in-flight list the cursor sees only completed entries. |
| `QueueSweep.RunNumbers` | io.c:294-388 | In every run request number r is the r-th submission that found a second free entry, with its target time and kind. |
| `QueueSweep.RunMovesData` | io.c:634-692 | In every run, for every accepted submission: the data of a host request are moved at most once, and exactly once before its completion if it is completed; the data of an internal one are never moved; nothing is moved or completed that was not submitted. |
| `QueueSweep.LastEntryDropped` | io.c:294-305 | Of any requests to an idle queue of n entries the first n - 1 are accepted, and the next is dropped without a trace although an entry is free. |
| `QueueSweep.SweepCompletesDue` | io.c:616-695 | An undisturbed sweep takes at most four steps for each entry and completes every due request, and a reclaim then leaves exactly the requests that are not due. |
| `QueueSweep.DueAreReclaimed` | io.c:402-417 | Because the list is sorted, the reclaimer's prefix contains every due entry. |
| `QueueProgress.DueRank` | io.c:616-695 | With a due request waiting, no step of the dispatcher, the clock or the worker raises the score, which counts the uncompleted requests before it twice and how the worker stands once, and every end of a sweep lowers it. |
| `QueueProgress.RankStep` | io.c:248-695 | The same from any state in which the request is due by the clock, also before the worker has looked at it. |
| `QueueProgress.DueIsCompleted` | io.c:616-695 | Whatever the dispatcher does between the worker's steps, a due request is completed by the time twice as many sweeps have ended as the queue has entries. |
| `WorkQueue.LinkedChain` | io.c:277-291 | Linking an entry in by `next` gives the list with the entry inserted. |
| `WorkQueue.LinkedBack` | io.c:277-291 | The same for `prev`. |
| `WorkQueue.SplicedChains` | io.c:419-435 | Splicing a prefix of the in-flight list behind the free list gives both new lists. |
| `WorkQueue.WorkerQueue.constructor` | io.c:748-762 | The index arrays thread the initial lists. |
| `WorkQueue.WorkerQueue.Allocate` | io.c:294-315 | The first free entry, none exactly when it is the last one. |
| `WorkQueue.WorkerQueue.FindPlace` | io.c:264-275 | The search from the tail ends at the insertion point. |
| `WorkQueue.WorkerQueue.InsertSorted` | io.c:248-292 | The arrays and list ends after all three kinds of relinking are those of the list with the entry inserted. |
| `WorkQueue.WorkerQueue.EnqueueIoReq` | io.c:317-388 | Accepts the request as in the model, or drops it exactly when only one entry is free; index arrays and lists stay in step. Host requests start uncopied, internal ones copied. |
| `WorkQueue.WorkerQueue.LastCompleted` | io.c:402-417 | The last entry of the longest reclaimable prefix. |
| `WorkQueue.WorkerQueue.ReclaimCompletedReqs` | io.c:390-439 | The new lists are those of the model's reclaim. |
| `WorkQueue.WorkerQueue.Work` | io.c:616-695 | One step of the worker on the arrays is one step of the model, also when its entry has been reclaimed or reused; the transfer or completion it reports is what the log of the run gains. |
| `PrpModel.MergedBytes` | io.c:204-243 | Merging contiguous pages moves the same bytes, in the same order, as going page by page. |
| `PrpModel.DmaMovesTheSameBytes` | io.c:49-246 | For every well-formed non-empty command the DMA path moves the same host and device bytes as the page-by-page path if and only if the namespace starts at the storage base. |
| `PrpModel.AllBytesMoved` | io.c:68-127 | The page-by-page path moves all `length` bytes, byte i between device address `offset` + i and, with o the offset of `prp1` in its page, host address `prp1` + i in the first page and beyond it the place (o + i) mod 4096 of PRP entry number (o + i) / 4096. |
| `PrpModel.MergedMovesAll` | io.c:204-243 | The same for the merged transfer. |
| `PrpModel.OneForEachPage` | io.c:68-127 | The page-by-page path makes one copy for each host page that the data touch, and none crosses the end of a page. |
| `PrpModel.MergedMaximal` | io.c:204-243 | No request of the merged transfer that begins with a page could have been longer: the next one does not continue it. One that begins inside a page is the first and ends with its page. |
| `PrpIo.FetchEntry` | io.c:74-90 | The loop fetches the PRP entries of the command in order (section 4.3 of NVM Express 1.3). |
| `PrpIo.PerformIo` | io.c:49-136 | The copies made are the page-by-page copies of the command: one for each page, which together move every byte from or to the host address that the command gives it. |
| `PrpIo.GatherEntries` | io.c:166-195 | `paddr_list` holds the PRP entries of the command from index 1 on. |
| `PrpIo.MergeRun` | io.c:225-230 | The inner loop finds the whole run of contiguous pages. |
| `PrpIo.PerformIoUsingDma` | io.c:141-246 | The DMA requests submitted are one for each run of contiguous pages of the command, as long as possible, and together move every byte from or to the host address that the command gives it. |
| `Credits.AllocateTakes` | channel_model.c:87-107 | A request gets exactly the smaller of what it needs and what is left from its slot to the end of the ring. |
| `Credits.AllocateFinishes` | channel_model.c:87-107 | It finishes in the first slot up to which enough is left, or at the end of the ring. |
| `Credits.AllocateCharges` | channel_model.c:87-107 | Only slots from the first to the last are charged, all but the last are drained, and none beyond its capacity. |
| `Credits.AllocateLast` | channel_model.c:87-107 | The last slot keeps exactly what the slots up to it have beyond the need. |
| `Credits.AllocateConserves` | channel_model.c:87-107 | What the request got is what the slots were charged in total. |
| `Credits.BandwidthBound` | channel_model.c:31-120 | Over any run of requests, idle gaps of any length included, the credits granted in any k consecutive slots never exceed k times the capacity of a slot. |
| `Credits.ServeMonotone` | channel_model.c:31-120 | Over any run no further request gives credits back, even after an idle gap that wraps the offset. |
| `Credits.AgedUsed` | channel_model.c:42-57 | What an idle gap that wraps the 32-bit offset does: grants from the wrapped offset on reappear as many slots later as the offset has lost, and no other slot changes. |
| `Credits.GrantReappears` | channel_model.c:42-57 | From the initial state: a grant in slot 0 is charged again in slot 2^32 after that many idle slots. |
| `ChannelModel.BeyondValidIsFull` | channel_model.c:42-57 | Ring entries outside [head, head + `valid_len`) are full. |
| `ChannelModel.AdvanceRefines` | channel_model.c:42-57 | For an idle gap of any length the ring stands for the aged ledger at the new time; without a wrap of the offset that is the ledger itself. |
| `ChannelModel.AdvanceExact` | channel_model.c:42-57 | For every ring: it still stands for what was granted after an idle gap if and only if the gap fits 32 bits or nothing has been granted from the wrapped offset on. |
| `ChannelModel.IdleGapBreaks` | channel_model.c:42-43 | A concrete ring that is wrong after 2^32 idle slots. |
| `ChannelModel.StartsAtItsTime` | channel_model.c:71 | A request starts in the slot of its own time if and only if its distance from now fits 32 bits. |
| `ChannelModel.ChargeStep` | channel_model.c:87-107 | One turn of the charging loop, including the wrap at the end of the array, is one step of the allocation. |
| `ChannelModel.AfterServes` | channel_model.c:31-120 | Every request is a step of the runs for which the bandwidth is bounded. |
| `ChannelModel.FreeRequest` | channel_model.c:64-78 | A request for the past, or whose slot is 98304 or more slots of 4000 ns ahead in 32 bits, returns its own time and is charged nothing. |
| `ChannelModel.ChargedRequest` | channel_model.c:80-119 | Any other needs a credit for each 128 bytes or part of them, takes them from the slot of its time on up to the first slot that completes them or the end of the ring, slot by slot as stated, and returns its time plus the transfer time plus 4000 ns for each slot it waits beyond need / `max_credits`. |
| `ChannelModel.ClockAlone` | channel_model.c:42-57 | What the passing of time alone does to every slot: nothing for a gap below 2^32 slots. |
| `ChannelModel.Channel.constructor` | channel_model.c:16-29 | A ring of full entries stands for the empty ledger. |
| `ChannelModel.Channel.Advance` | channel_model.c:42-57 | The head moves to the slot of the current time after a gap of any length, and the ring stands for the aged ledger. |
| `ChannelModel.Channel.Charge` | channel_model.c:87-107 | The loop charges the ledger greedily and returns the last slot's position and distance. |
| `ChannelModel.Channel.Request` | channel_model.c:31-120 | After idle gaps of any length: the ledger is the greedy allocation from the request's slot, none for requests in the past or beyond the ring; the returned time is `request_time` plus the transfer time and a slot for each slot that the allocation takes beyond those the credits need. |
| `NandTiming.Lun.AdvanceNand` | ssd.c:362-454 | Case by case: every command starts when it is due and its LUN is free, and commands of a LUN never overlap. A read of 4096 bytes starts its transfer after the 4 KiB read latency of its cell type, any other read after the full one; a write ends the program latency after its channel request, an erase the erase latency after its start, a no-op at its start; both channels are as the requests leave them. |
| `NandTiming.Lun.ReadOut` | ssd.c:403-416 | The transfer of a read is ceil(size / `max_ch_xfer_size`) channel requests, all of `max_ch_xfer_size` bytes except that the last has the rest, each from the end of the one before, and with interleaving one PCIe request of the same size from each end. |
| `NandTiming.PiecesAddUp` | ssd.c:403-416 | The pieces of a transfer have between 1 and `max_ch_xfer_size` bytes and add up to its size. |
| `NandTiming.TransferUnique` | ssd.c:403-416 | The course of a transfer, all channel states and times, is determined by what it starts from. |
| `NandTiming.ReadEnds` | ssd.c:403-419 | A read is never complete for the host before its LUN is free, only with interleaving later, and without interleaving PCIe is not used. |
| `NandTiming.NextIdleTime` | ssd.c:456-472 | The first moment from now on at which no command of any LUN is still running: no command ends later, and unless it is now it is the end of one. |
| `KvModel.InsertedReaches` | kv_ftl.c:164-232 | An insertion never breaks a chain, also where chains of different home slots have merged. |
| `KvModel.InsertRefines` | kv_ftl.c:200-232 | Inserting a new key at the end of its home slot's chain refines adding it to the map. |
| `KvModel.UpdateRefines` | kv_ftl.c:306-312 | Changing a stored length refines the same change of the map. |
| `KvModel.SearchStep` | kv_ftl.c:335-357 | At a free slot or the end of the chain the key is absent; at its slot it is found; otherwise the search goes on and gets nearer to the end. |
| `KvModel.FreeSlotExact` | kv_ftl.c:180-185 | Some slot is free, so that the probing ends, if and only if fewer keys are stored than there are slots. |
| `KvFtl.MappingTable.FindSlot` | kv_ftl.c:335-357 | The chain search terminates and finds the slot of exactly this key, or nothing exactly when the key is absent. |
| `KvFtl.MappingTable.GetMappingEntry` | kv_ftl.c:320-377 | The stored offset and length, or offset -1 exactly for an absent key. |
| `KvFtl.MappingTable.FindNextSlot` | kv_ftl.c:164-198 | The tail of the chain, and the first free slot behind it when probing goes round the table; both loops terminate while a slot is free. |
| `KvFtl.MappingTable.NewMappingEntry` | kv_ftl.c:200-232 | The map gains exactly the new key; required is that fewer keys are stored than there are slots, without which no slot is free. |
| `KvFtl.MappingTable.UpdateMappingEntry` | kv_ftl.c:268-318 | Exactly the length of a stored key changes; 1 exactly for an absent key. |
| `KvStore.StoredOk` | kv_ftl.c:505-640 | Every store, also an update of another length, keeps the stretches that the keys were inserted with disjoint and below the allocator, and every extent inside the storage. |
| `KvStore.StoreExact` | kv_ftl.c:505-640 | Byte by byte what a store changes: the copy goes to the offset of the key or behind everything allocated, no other entry changes, and the recorded length of a stored key changes exactly when the old and the new length differ and are at most 1024. |
| `KvStore.StoredValue` | kv_ftl.c:522-540 | Afterwards the key has the bytes of the command; an update of another length that is not small keeps the recorded length and overwrites what it covers. |
| `KvStore.StoredKeepsOther` | kv_ftl.c:612-613 | A store leaves the value of every key none of whose bytes it copies over. |
| `KvStore.UpdateKeepsOthersExact` | kv_ftl.c:527-540 | In every state: all values of a given length can be stored under a key without changing any other key's value if and only if no other key's non-empty extent meets the bytes that are overwritten. |
| `KvStore.UpdateBeyondStretch` | kv_ftl.c:527-540 | While every value lies in its stretch: an update no longer than the stretch is always safe, and a longer one is safe if and only if no other non-empty extent meets the bytes beyond the stretch. |
| `KvStore.InsertKeepsOthers` | kv_ftl.c:523-527 | While every value lies in its stretch, storing a new key changes no other value. |
| `KvStore.RunRepresents` | kv_ftl.c:505-640 | Over every run of stores in which no update outgrows its stretch, the storage holds exactly the map that the stores build. |
| `KvStore.GrowingUpdateOverwrites` | kv_ftl.c:527-540 | From the initial state: two keys are stored, then the first with as many bytes as both have; the value of the second is replaced. |
| `KvFtl.KvSsd.AllocateMem` | append_only.c:25-38 | Successive allocations follow each other. |
| `KvFtl.KvSsd.Store` | kv_ftl.c:505-640 | The command on the hash table, the allocator and the storage does what `Stored` of KvStore says, for new keys and for updates of any length. |
| `KvFtl.KvSsd.Retrieve` | kv_ftl.c:541-553 | The bytes of the key's extent up to the buffer length, and the error status exactly for an absent key. |
| `KvFtl.KvSsd.Exist` | kv_ftl.c:554-565 | The error status exactly for an absent key. |
| `ZnsModel.PlainWriteFits` | zns_read_write.c:17-39 | A write that passes the checks ends inside its zone: the write boundary error is unreachable. |
| `ZnsModel.CommandSound` | zns_mgmt_send.c:7-228 | On every device, with or without ZRWA, a command changes the OPEN and ACTIVE counters exactly as it changes its zone, and the ZRWA counter too except that a write whose implicit flush ends at the end of a ZRWA zone does not give it back; all stay below the totals. |
| `ZnsModel.StatusTells` | zns_mgmt_send.c:7-228 | A command that reports an error has changed neither its zone nor a counter; one that succeeds has brought the zone into the state of its transition, with the write pointer exactly where a flush, a write or the fewest granules of an implicit flush take it. |
| `ZnsModel.StatusExact` | zns_read_write.c:64-337 | For every command, zone and status: the command reports the status if and only if an explicit condition on zone, counters and parameters holds. A plain write succeeds if and only if it is a multiple of the write unit, ends in its zone, is at the write pointer, and the zone is open, or closed with an OPEN resource left, or empty with an ACTIVE and an OPEN resource left; each error, and success of every other command, has its condition in the same way. |
| `ZnsModel.KeepsGranules` | zns_read_write.c:226-337 | When the last granule fits, every command leaves a zone with ZRWA inside its bounds, written in whole granules or to its end. |
| `ZnsRuns.EffectTiles` | zns_read_write.c:64-174 | A command keeps the writes since the last reset a tiling of everything up to the write pointer; an append's tile starts at the old write pointer. |
| `ZnsRuns.TilesDisjoint` | zns_read_write.c:119-125 | Two tiles never overlap and lie in the order of the writes. |
| `ZnsRuns.ApplyInv` | zns_mgmt_send.c:230-258 | One command on one zone keeps the counters equal to the numbers of open and of active zones, and the ZRWA counter equal to the zones that hold one and those that a write has filled. |
| `ZnsRuns.Serve` | zns_mgmt_send.c:260-286 | So does a whole request, with select-all over every zone. |
| `ZnsRuns.RunKeepsZones` | zns_mgmt_send.c:260-286 | After every command sequence on any device: OPEN and ACTIVE count exactly; ZRWA counts exactly if and only if no write has filled a zone holding one; an empty zone has no ZRWA, an active zone is not at its end, and the writes to a zone without ZRWA tile it up to the write pointer, which never passes the end. |
| `ZnsRuns.FilledZoneKeepsZrwa` | zns_read_write.c:27-36 | Such writes exist: opening a zone with ZRWA and writing all of it at once, on every device whose ZRWA is as large as a zone. |
| `ZnsFills.FillNeeds` | zns_read_write.c:316-337 | A write that fills a zone with ZRWA is no longer than the room that the sizes of zone, granule and ZRWA leave, because write pointers move by whole granules. |
| `ZnsFills.CanFillFills` | zns_read_write.c:316-337 | The other side: opening zone 0, flushing its granules explicitly or by writes behind the ZRWA, and one last write fill it. |
| `ZnsFills.FillsExact` | zns_read_write.c:17-39 | For every device: some command sequence fills a zone that holds a ZRWA, and so loses its resource, if and only if the totals let a zone be opened with ZRWA and the write unit allows a write that fits into that room. |
| `ZnsRuns.BoundaryErrorExact` | zns_read_write.c:17-39 | For every device: no command sequence moves a write pointer past the end of its zone (the write boundary error) if and only if what a zone has left after its last whole granule fits into the ZRWA, or every aligned write is too long to reach it, or the totals let no zone be opened with ZRWA. |
| `ZnsRuns.GranulesOverrun` | zns_read_write.c:316-337 | The failing side, from the initial state: zone 0 is opened with ZRWA and written just behind the ZRWA once for each granule, and its write pointer ends beyond it. |
| `ZnsRuns.WholeZoneOverruns` | zns_read_write.c:316-337 | The same without a ZRWA but with a flush granule: one write that ends at the last LBA. |
| `ZnsRuns.DivideErrorExact` | zns_mgmt_send.c:204-206 | For every device: no command sequence divides by zero if and only if there is a flush granule or the totals let no zone be opened with ZRWA. |
| `ZnsRuns.FlushDivides` | zns_mgmt_send.c:204-206 | The failing side: open zone 0 with ZRWA, then flush LBA 0. |
| `ZnsRuns.WriteDivides` | zns_read_write.c:316-318 | On a device without ZRWA, as both configured ones are, a write to LBA 0 after opening zone 0 with ZRWA divides by zero too. |
| `ZnsFtl.Held` | zns_ftl.h:73-78 | A zone that is open, active or holds a ZRWA keeps the corresponding counter above zero; no counter is negative. |
| `ZnsFtl.ZnsFtl.constructor` | zns_ftl.c:10-82 | All zones empty, no resource acquired. |
| `ZnsFtl.ZnsFtl.Acquire` | zns_ftl.h:63-71 | Succeeds exactly below the total, and counts one more. |
| `ZnsFtl.ZnsFtl.Release` | zns_ftl.h:73-78 | Counts one less; every caller shows that the counter is above zero. |
| `ZnsFtl.ZnsFtl.SendClose` | zns_mgmt_send.c:7-29 | Zone, counters and status are those of the close transition. |
| `ZnsFtl.ZnsFtl.SendFinish` | zns_mgmt_send.c:31-64 | The same for finish, through its fall-through cases. |
| `ZnsFtl.ZnsFtl.SendOpen` | zns_mgmt_send.c:66-106 | The same for open, with or without ZRWA. |
| `ZnsFtl.ZnsFtl.SendReset` | zns_mgmt_send.c:108-156 | The same for reset. |
| `ZnsFtl.ZnsFtl.SendOffline` | zns_mgmt_send.c:158-175 | The same for offline. |
| `ZnsFtl.ZnsFtl.SendFlush` | zns_mgmt_send.c:177-228 | The same for an explicit ZRWA flush, which stops at the division by zero when there is no flush granule. |
| `ZnsFtl.ZnsFtl.ZmgmtSend` | zns_mgmt_send.c:230-258 | One management command keeps the invariant over all zones and does what the model does, and the condition of the status it reports holds. |
| `ZnsFtl.ZnsFtl.ZnsZmgmtSend` | zns_mgmt_send.c:260-286 | One zone, or with select-all every zone, goes through the step of the model; select-all reports success whatever the zones say, one zone its own status, whose condition holds. |
| `ZnsFtl.ZnsFtl.IncreaseWritePtr` | zns_read_write.c:17-39 | The write pointer moves; a zone that is filled releases OPEN and ACTIVE, both above zero, and becomes full. |
| `ZnsFtl.ZnsFtl.WriteToZone` | zns_read_write.c:64-174 | Zone, counters and status of a write or append without ZRWA; an append returns the old write pointer. |
| `ZnsFtl.ZnsFtl.WriteToZrwa` | zns_read_write.c:226-337 | Zone, counters and status of a write with ZRWA and its implicit flush, also beyond the end of the zone and up to a division by zero. |
| `ZnsFtl.ZnsFtl.ZnsWrite` | zns_read_write.c:383-399 | A write keeps the invariant over all zones, and the condition of the status it reports holds; a successful append without ZRWA adds the tile it reports. |

## Left out

- FtlExact.FreeLinesExact: for lines of fewer than five pages only the two bounds of `FtlExact.FreeLinesBetween` are proved, not at which page between them the free list runs out first.
- ConvFtl.ConvFtl.WritePage: excludes exactly the states in which the page or its garbage collection takes a line from the empty free list, where the code follows a null pointer; so do `DoGc`, `CheckAndRefillWriteCredit` and `GcWritePage`.
- The NAND timing of a page write, the write buffer and the early-completion choice are not part of the write loop here; `NandTiming` has the timing of single commands.
- ConvIo.ConvRead: takes the mapping tables of the partitions; the times the reads complete at are not modelled.
- ConvIo.ConvWrite: excludes requests during which some partition takes a line from the empty free list; allocation and release of the write buffer are not modelled, and a sub-page write counts as a write of its whole page, as in the loop itself.
- ChannelModel.Channel.Request: requires that the clock does not run backwards; 64-bit times are unbounded numbers.
- NandTiming.Lun.AdvanceNand: the clock stands still during one call; the cell type of the page is a parameter; a read of zero bytes, for which the code uses an uninitialised time, and an unmapped address are excluded.
- KvFtl.MappingTable.NewMappingEntry: requires fewer keys than slots; with as many, no slot is free (`KvModel.FreeSlotExact`) and the probing loop of the code does not end.
- KvFtl.KvSsd.Store: requires that the copy stays in the backing store and, for a new key, a free slot and an offset inside the store (which the code checks with `BUG_ON`); the value is one contiguous buffer, its PRP entries are modelled for block commands only.
- PrpIo.PerformIo: mapping and unmapping of host pages is abstracted to physical addresses; a PRP list is the sequence of its entries; commands that are neither reads nor writes move nothing.
- PrpIo.PerformIoUsingDma: requires at most 512 PRP entries, which is what the static list has room for.
- WorkQueue.WorkerQueue.Work: reading an entry, copying its data, posting its completion and following `next` are atomic steps; memory barriers and torn reads are not modelled.
- ZnsFtl.ZnsFtl.WriteToZrwa: whether the ZRWA buffer has room for a flush is a parameter; the assertion that it has room when the zone is opened is not modelled. Sizes of the ZRWA are so small that doubling them does not wrap.
- ZnsFtl.ZnsFtl.SendFlush: reports `DivideError` where the code divides by zero and stops; the theorems about runs also cover commands after that.
- ZnsFtl.ZnsFtl.WriteToZone: the case that the write buffer is full, in which the command is retried later and the zone does not change, and the page loop for NAND timing are left out.
- ZnsFtl.ZnsFtl.SendReset: clearing the storage of the zone and refilling its ZRWA buffer are left out.
- The nested NAND structs of channels, LUNs, planes and blocks are arrays indexed by page and block number; there is one plane in a LUN, as the code assumes.
- `struct line` objects are line numbers, with their fields in arrays; kernel lists are sequences of line numbers.
- Which of several victims with the same number of valid pages is taken follows from the heap; the theorems about runs hold for every choice at every step.
- The choice of the I/O worker for a request (`io.c:25-32`, `io.c:307-309`) and the interrupt part of the worker loop: easy.
- KV delete, batches, iterators, keys of different lengths: delete clears the link of a slot and breaks chains, so no simple map is refined.
- The zone report, the die arithmetic of zones and `simple_ftl.c`: short arithmetic without a hard invariant.
- Admin commands, PCI configuration, interrupts, proc files, module set-up and the DMA engine driver: kernel plumbing.
- `clean_one_block`: unused by garbage collection.
