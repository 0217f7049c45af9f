# A verified model of the H4H flash translation layer

This project models the flash translation layer (FTL) of H4H in Dafny and proves what it is for: that a host
reading through it sees a plain map from logical pages to data, whatever the block manager, the garbage collector, a
restart, the mapping cache, the request splitter and the schedulers do underneath.

`dafny verify dfyconfig.toml` checks everything.

## What is modelled

* **Page-level FTL.** `Nand`, `Lists`, `Geometry` and `BlockManager` hold the block table, the per-chip lists, the five
  counters and the block index arithmetic. `Mapping` states the invariant that ties mapping table, page status tables and
  flash (data and OOB) together. `Cursor` is the round-robin allocation cursor and `Allocation` the log of everything it
  hands out. `Greedy` is the victim scan; `GcReads`, `Compaction`, `GcTheory` and `Victims` are the other pieces of a
  collection. `PageFtl` is the FTL itself, a class whose methods follow the C functions.
  `Balance` is about free space per chip. `Host` runs the FTL against a plain map, writes with on-demand collection, and
  restarts from a snapshot. `HostRequest` takes a host write from its sectors to the flash: split, check for collection, map,
  program. `Extents` is the multi-page allocator.
* **DFTL.** `DftlMap` is the demand-paged mapping table, `DftlHost` the load, forward and evict sequence of a request.
* **Protocols.** `StubProxy` is the request protocol between the user-level proxy and the kernel stub. `PriorQueue` and
  `Scheduler` are the per-chip request scheduler with the RAM device's slots and the host's completion count. Both are
  step relations over all interleavings, with theorems about whole runs.
* **Segment FTL** (`SegmentFtl`), **request splitting** (`RequestSplit`) and the **substring search** of the vendored
  string library (`Kmp`).

## How to read the model

* A physical subpage is a pair of block index and offset into the block's page status table. `punit` stands for a block's
  channel and chip; `Geometry.IndexRoundTrip`, `AddressRoundTrip` and `PunitIsQuotient` relate the two.
* `wp` (a ghost field) counts the subpages of a block handed out since its last erase. It is not in the program; it says
  which not-invalid subpages hold data.
* `log` (a ghost field) records every page handed out, every erase and every switch to fresh active blocks since the FTL
  was created or loaded at `start`. Every valid state's log is one the allocator can produce, so what `Allocation` proves of logs
  holds in every state a run reaches.
* A round is units times pages allocations: one page after another, each on every unit in turn.
* What the device and the outside world decide is an input: erase verdicts (`bad`), addresses of fresh flash pages
  (`pool`), the order of steps. A branch the program marks as a bug is an outcome (`Bug`, `Halted`, `fault`, ...), and the
  contracts say exactly when it is reached.
* Integers are unbounded; sector counts, LPAs and counters are assumed to fit their C types.

## Where the code differs from its intent

The model follows the code. The following are proved of it.

* The greedy victim scan compares the active block with the current choice and never looks at the next candidate's
  invalid count (ftl/algo/page_ftl.c:634). `Greedy.GreedyMissesBest` is an input on which it leaves the block with the
  most invalid subpages; `Greedy.GreedyIsBestIff` says exactly when it takes one with the most.
* Free space is checked once per host request, not per page, and the allocating path can run out of blocks: without bad blocks
  it succeeds exactly when every unit has a free block for each end of a round that its pages reach (`Host.HostWrite`,
  `LongWriteFails`). But only a read-modify-write allocates (ftl/hlm_nobuf.c:177-198), and only the first and the last request of a
  host write can be one (`RequestSplit.OnlyEndsAreRmw`). So a host write allocates at most two pages, and with a free block per unit
  it runs out only if a round is a single page, one block is free and both ends are written in part
  (`HostRequest.WriteSectors`; `OnePageRoundsFail` is such a write).
* A write that is not a read-modify-write goes to the page its address is mapped to (ftl/hlm_nobuf.c:169-172), so it fails on an
  address never written (`HostRequest.RangeReachable`). With several subpages per page it also writes at the page's start,
  wherever its first address stands. That keeps the tables right exactly when every live subpage gets its own address again
  (`Mapping.InPlaceIff`); `Mapping.InPlaceMisplaces` is a write after which two addresses read wrong data.
* A read-modify-write of addresses never written is turned into a write whose holes hold whatever the padding buffers hold
  (`HostRequest.RangeReads`).
* A request that runs out of blocks has mapped its first pages and programs nothing, so their addresses lose their old
  data (`PageFtl.PageFtl.WriteRequest`, outcome `NoSpace`; `HostRequest.KeptBut`).
* A host trim goes address by address, so a trim across the end of the logical space still trims the part inside
  (`HostRequest.TrimRequest`); only a direct call with the whole range refuses it (`PageFtl.PageFtl.InvalidateLpa`).
* A collection can run out of blocks itself: exactly when its pages reach the end of the round and a unit has no free block
  (`PageFtl.PageFtl.DoGc`, `GcFailsIff`).
* A page write with an address beyond the logical space is noticed after the subpages before it have been mapped. Those
  addresses then lose their old data (`PageFtl.PageFtl.WriteRequest`, outcome `BadAddress`; `GivenUpAt` says what the tables
  still satisfy).
* The page allocator reports failure after it has filled in a page (`PageFtl.PageFtl.GetFreePpa`).
* The prepare step of the block manager returns an already prepared block when its list holds no other
  (`BlockManager.Abm.GetFreeBlockPrepare`).
* Erasing a block does not reset the offset that the extent allocator uses, so a block once used up yields no page again
  (`Extents.ReuseIsEmpty`); the caller's loop still ends, and `Extents.ExtentFtl.Allocate` says exactly when it succeeds.
* Trimming an entry of an evicted DFTL slot, whose memory copy is kept, changes exactly that entry but brings the slot into memory
  without listing it (`DftlMap.DftlMap.InvalidateEntry`). Setting an entry unlinks the slot from the LRU list, and
  unlinking one that is not listed follows poisoned pointers (common/3rd/ulist.h:139-144), so `SetEntry` is for listed slots.
* The proxy gives up a unit's slot before it copies the data of a finished read. Reads return their own data in every run in which
  a unit gets its next request only after `end_req` of the last one, which is what the scheduler does. From every state
  in which a read has been taken, a writer that does not wait can overwrite its data
  (`StubProxy.EagerWriterOverwritesRead`, `ReadCanBeOverwritten`).
* The queue's warning about a deadlock from looking only at list heads (ftl/queue/prior_queue.c:237) does not come true:
  `PriorQueue.NeverBlocked` and `Scheduler.NotStuck`.
* Collecting an unallocated segment resets its counters but not its page states. The counters stay right exactly when
  they were zero (`SegmentFtl.SegmentFtl.DoGcSegment`). Only a direct call reaches this: the host collects after
  `is_gc_needed`, which asks for an allocated segment (ftl/hlm_nobuf.c:265-268), and an allocation allocates its segment first.
* The collection threshold "at most 2 percent free" leaves two free blocks per chip exactly when a chip has at least 34 blocks
  (`Balance.Threshold`).

## Model

| member | source | states |
|---|---|---|
| Geometry.IndexRoundTrip | ftl/algo/abm.c:45-65 | the block index of a (channel, chip, block) is in range and decodes to it |
| Geometry.AddressRoundTrip | ftl/algo/abm.c:45-65 | every index decodes to an address inside the device whose index it is |
| Geometry.PunitIsQuotient | ftl/algo/abm.c:45-65 | the parallel unit of a block, computed from channel and chip, is its index divided by the blocks per chip |
| Geometry.TurnRoundTrip | ftl/algo/page_ftl.c:305-355 | the unit a cursor position addresses is in range and has that position as its turn |
| Geometry.UnitRoundTrip | ftl/algo/page_ftl.c:305-355 | every unit has a turn, and the cursor at that turn addresses it |
| Geometry.RoundCovers | ftl/algo/page_ftl.c:305-355 | arithmetic of a round: page p of unit u is served at exactly one position; `Allocation.RoundExact` is the property of the allocator |
| Geometry.PunitComponents | ftl/algo/abm.c:45-65 | channel and chip are recovered from a unit number |
| Nand.InvalidateKeepsBlockOk | ftl/algo/abm.c:502-559 | invalidating a subpage keeps the stored invalid count equal to the true one and DIRTY equivalent to having an invalid subpage |
| Nand.EraseKeepsBlockOk | ftl/algo/abm.c:345-431 | an erased block is consistent again, whatever it was: FREE or BAD, nothing invalid, one more erase counted, unit and offset kept |
| Lists.OnExactlyOneList | ftl/algo/abm.c:269-559 | each block is on exactly one list, that of its status on its own unit |
| Lists.RelinkOk | ftl/algo/abm.c:322-343 | changing a block's status and moving it to the matching list keeps every list exact |
| Lists.RelinkLengths | ftl/algo/abm.c:322-343 | such a move takes one entry from the old list, adds one to the new and leaves all other lengths |
| Lists.RemoveOrder | ftl/algo/abm.c:322-343 | taking an entry off a list keeps the order of all others |
| Lists.RelinkMoves | ftl/algo/abm.c:322-343 | such a move puts the block at the tail of the new list, and every pair of other entries of every list keeps its order |
| Lists.OrderDetermines | ftl/algo/abm.c:322-343 | a list is determined by its entries and the order of each pair |
| Lists.FreeOfRelink | ftl/algo/abm.c:269-343 | taking a free block takes the first entry off its unit's free list and leaves the others as they are |
| Lists.FreeOfGiven | ftl/algo/abm.c:399-425 | giving one back appends it to its unit's free list and leaves the others as they are |
| Lists.SortedNext | ftl/algo/abm.c:595-637 | relinking the blocks one after another sorts the lists by index |
| Lists.CountTotal | ftl/algo/abm.c:67-76 | the counts of the five states sum to the number of blocks |
| BlockManager.Replace | ftl/algo/abm.c:345-559 | replacing one block entry keeps the table and the lists and moves one unit between two counts |
| BlockManager.FirstFree | ftl/algo/abm.c:278-301 | the index found is that of the first FREE block of the list, or the list's length |
| BlockManager.BuildFreeLists | ftl/algo/abm.c:111-210 | a new device has every block on its unit's free list, in index order, and nowhere else |
| BlockManager.RebuiltAgrees | ftl/algo/abm.c:563-637 | lists and counts rebuilt from recorded blocks have the same members and numbers as the originals |
| BlockManager.Reload | ftl/algo/abm.c:563-676 | round trip: a snapshot stored and loaded gives every field of every block but the offset, the same lists as multisets, now in index order, and the same five counters |
| BlockManager.Abm.constructor | ftl/algo/abm.c:111-210 | the new manager is consistent, with all blocks free, never erased and listed in index order |
| BlockManager.Abm.CheckStatus | ftl/algo/abm.c:67-76 | the five counters sum to the number of blocks in every consistent state |
| BlockManager.Abm.GetFreeBlockPrepare | ftl/algo/abm.c:269-302 | the first FREE block of the unit is marked prepared; with none FREE the last listed block is returned unchanged; nothing on an empty list |
| BlockManager.Abm.Prepare | ftl/algo/abm.c:284-296 | marking one block prepared keeps table, lists and counters consistent |
| BlockManager.Abm.GetFreeBlockRollback | ftl/algo/abm.c:304-320 | the prepared block is FREE again and everything stays consistent |
| BlockManager.Abm.GetFreeBlockCommit | ftl/algo/abm.c:322-343 | the prepared block is CLEAN and the last entry of its clean list, no other entry moves, and everything stays consistent |
| BlockManager.Abm.TakeFreeBlock | ftl/algo/page_ftl.c:143-166 | prepare and commit together take the first entry of the unit's free list, fail exactly when it is empty and touch no other unit's free list |
| BlockManager.Abm.EraseAt | ftl/algo/abm.c:345-431 | the block is FREE or BAD, with no invalid subpage, and the last entry of the right list; a block in use is appended to its own unit's free list and no other free list changes |
| BlockManager.Abm.EraseBlock | ftl/algo/abm.c:345-431 | the same, addressed by channel, chip and block, with the tail of its new list, the order of the others and the free lengths; an address outside the device changes nothing |
| BlockManager.Abm.SetToDirtyBlock | ftl/algo/abm.c:433-500 | the block is DIRTY with every subpage invalid and the last entry of its unit's dirty list; no other entry moves |
| BlockManager.Abm.InvalidatePage | ftl/algo/abm.c:502-559 | one subpage becomes invalid; the first makes its block the last DIRTY one of its unit and moves no other entry; free lists keep their lengths |
| BlockManager.Abm.SetOffset | ftl/algo/page_ftl.c:388-398 | only the block's page offset changes |
| BlockManager.Abm.Store | ftl/algo/abm.c:639-676 | the snapshot records every block and could be loaded on this device |
| BlockManager.Abm.Load | ftl/algo/abm.c:563-637 | the block table is the recorded one; lists, in index order, and counters are consistent with it |
| BlockManager.Abm.RebuildLists | ftl/algo/abm.c:595-637 | lists, in index order, and counters are rebuilt to match the block table |
| Mapping.NoSharing | ftl/algo/page_ftl.c:424-478 | two mapped LPAs never share a physical subpage |
| Mapping.MappedInUse | ftl/algo/page_ftl.c:424-478 | a mapped LPA points at a not-invalid subpage of a CLEAN or DIRTY block whose OOB names it |
| Mapping.LiveHasOneOwner | ftl/algo/page_ftl.c:424-558 | every subpage handed out and not invalid belongs to exactly one LPA, the one in its OOB |
| Mapping.PadStep | ftl/algo/page_ftl.c:424-478 | invalidating a padding subpage keeps the invariant and the contents |
| Mapping.TrimStep | ftl/algo/page_ftl.c:524-558 | unmapping an LPA keeps the invariant and removes exactly that LPA from the contents |
| Mapping.MapStep | ftl/algo/page_ftl.c:424-478 | mapping an LPA to the next subpage of a block keeps the invariant and sets exactly that LPA |
| Mapping.FirstBad | ftl/algo/page_ftl.c:449-452 | the position found is the first with an address beyond the logical space |
| Mapping.FirstBadPage | ftl/algo/page_ftl.c:449-452 | the page found is the first of a request with such an address |
| Mapping.SlotsStep | ftl/algo/page_ftl.c:424-478 | mapping and programming a whole page keeps the invariant and means storing its subpages in order |
| Mapping.MappedNotProgrammed | ftl/algo/page_ftl.c:424-478 | a page mapped but not programmed makes exactly its LPAs unreadable, also among others mapped and not programmed |
| Mapping.StoreMeaning | ftl/hlm_nobuf.c:177-207 | after a page write an LPA reads the last data of that page for it, or what it read before |
| Mapping.InPlaceIff | ftl/hlm_nobuf.c:169-172 | writing a page again in place keeps the invariant iff every live subpage of it gets its own LPA again |
| Mapping.InPlaceReads | ftl/hlm_nobuf.c:169-172 | afterwards an LPA inside the page reads the data of its subpage, any other what it read before |
| Mapping.InPlaceStep | ftl/hlm_nobuf.c:169-172 | slots that stand where their LPAs are mapped are stored, nothing else changes |
| Mapping.InPlaceMisplaces | ftl/hlm_nobuf.c:169-172 | counterexample: a consistent state with two subpages per page in which a write leaves two LPAs with wrong data |
| Mapping.ActivateStep | ftl/algo/page_ftl.c:143-166 | making free blocks active disturbs no mapping |
| Mapping.PageEvolves | ftl/algo/page_ftl.c:305-478 | taking free blocks and mapping a page erases no block and takes none out of use |
| Mapping.EraseStep | ftl/algo/page_ftl.c:1047-1054 | erasing a fully invalid block keeps the invariant and the contents |
| Mapping.SealStep | ftl/algo/page_ftl.c:1106-1171 | giving up an unwritten subpage keeps the invariant |
| Cursor.Advance | ftl/algo/page_ftl.c:331-353 | serving a unit moves the cursor and exactly that unit's write pointer by one page |
| Cursor.Switch | ftl/algo/page_ftl.c:336-348 | when all active blocks are used up, a fresh one per unit starts a new round |
| Cursor.CursorErase | ftl/algo/page_ftl.c:1047-1054 | erasing a block that is not active leaves the cursor as it is |
| Cursor.EndOfRound | ftl/algo/page_ftl.c:1120-1150 | at the end of a round every block in use is used up |
| Allocation.PagesInOrder | ftl/algo/page_ftl.c:305-355 | in every log the pages of a block since its last erase come out as 0, 1, 2, ... within the block |
| Allocation.NoPageTwice | ftl/algo/page_ftl.c:305-355 | in every log no page comes out twice without an erase of its block in between |
| Allocation.PositionServes | ftl/algo/page_ftl.c:305-355 | the n-th allocation of a round serves page n div units of the n mod units-th unit in turn, and no other does |
| Allocation.RoundExact | ftl/algo/page_ftl.c:305-355 | a round, with collections in between, hands out each page of each active block exactly once and nothing else |
| Allocation.EveryRoundExact | ftl/algo/page_ftl.c:305-355 | the same for every round of a log, the first one included |
| Allocation.PagesFromStart | ftl/algo/page_ftl.c:305-355 | from creation or load on, the pages of every block come out as 0, 1, 2, ... since its last erase |
| Allocation.TrackHanded | ftl/algo/page_ftl.c:331-353 | the log extended by the page handed out ends in the allocator's new cursor and write pointers |
| Allocation.TrackFresh | ftl/algo/page_ftl.c:336-348 | the same when fresh active blocks are taken |
| Allocation.TrackErased | ftl/algo/page_ftl.c:1047-1054 | the same when a block that is not active is erased |
| GcTheory.LiveLocsBound | ftl/algo/page_ftl.c:836-895 | victims are DIRTY, so each contributes at most all but one of its subpages |
| GcTheory.GcSlotsStep | ftl/algo/page_ftl.c:976-1000 | rewriting the first live subpages of the victims takes exactly those off the live list and changes no content |
| GcReads.ReadPage | ftl/algo/page_ftl.c:865-880 | the request holds exactly the page's not-invalid subpages in place |
| GcReads.ReadBlock | ftl/algo/page_ftl.c:865-894 | pages with live subpages go to consecutive requests, in order |
| GcReads.BuildReads | ftl/algo/page_ftl.c:861-895 | all requests together return exactly the live subpages of the victims, in order |
| Compaction.WriteCompaction | ftl/hlm_reqs_pool.c:523-568 | the exact sequence of live subpages, packed, in floor(n / width) + 1 requests; fits the array iff the source has a hole |
| Victims.RewriteStep | ftl/algo/page_ftl.c:976-1000 | one page of carried subpages changes no content and shortens the live list by them |
| Victims.PackedCarries | ftl/algo/page_ftl.c:976-991 | each compacted request carries the next live subpages with the LPAs of their OOB, then padding |
| Victims.NothingLive | ftl/algo/page_ftl.c:1017-1031 | victims with no live subpage left are fully invalid |
| Victims.VictimUnreferenced | ftl/algo/page_ftl.c:1017-1054 | no LPA points into a fully invalid block |
| Greedy.PickIs | ftl/algo/page_ftl.c:608-639 | the block the scan settles on is the only one with the properties its loop ends with |
| Greedy.PickNone | ftl/algo/page_ftl.c:608-639 | there is one iff the list holds a block other than the active one, and it is not the active one |
| Greedy.GreedyIsBestIff | ftl/algo/page_ftl.c:608-639 | exactly when the block taken has the most invalid subpages of all candidates |
| Greedy.GreedyMissesBest | ftl/algo/page_ftl.c:608-639 | counterexample with consistent blocks: one with one invalid subpage is taken and one with three is left |
| PageFtl.GcFailsIff | ftl/algo/page_ftl.c:976-1000 | a collection runs out of blocks iff its victims' live pages reach the end of the round and a unit has no free block |
| PageFtl.GcSafe | ftl/algo/page_ftl.c:976-1000 | with a free block on every unit it does not |
| PageFtl.PositionBound | ftl/algo/page_ftl.c:305-355 | the cursor's position lies within the round |
| PageFtl.GcSpace | ftl/algo/page_ftl.c:852-1000 | the compacted requests fit the request array and one round of allocations |
| PageFtl.PageFtl.constructor | ftl/algo/page_ftl.c:209-276 | a new FTL is valid and empty, with the same number of free blocks on every unit |
| PageFtl.PageFtl.GetActiveBlocks | ftl/algo/page_ftl.c:143-166 | succeeds iff every unit has a free block, and then every unit gets the first of its own free list |
| PageFtl.PageFtl.NextUnit | ftl/algo/page_ftl.c:331-353 | the cursor's next position; the end of a round takes the first free block of every unit and fails exactly when a unit has none |
| PageFtl.PageFtl.GetFreePpa | ftl/algo/page_ftl.c:305-355 | the page starts where its block's write pointer stands; channel and chip match the cursor; the log takes exactly this page and stays one of the allocator's |
| PageFtl.PageFtl.MapOne | ftl/algo/page_ftl.c:435-476 | one turn of the mapping loop on padding and on an LPA, old subpage included |
| PageFtl.PageFtl.MapLpaToPpa | ftl/algo/page_ftl.c:424-478 | succeeds iff all addresses are in range; the prefix mapped keeps the invariant and, once programmed, means storing it |
| PageFtl.PageFtl.MapPage | ftl/hlm_nobuf.c:190-208 | one page of a request: allocated and mapped, or exactly when and how it fails, with what the tables then satisfy |
| PageFtl.PageFtl.MapPages | ftl/hlm_nobuf.c:143-209 | all pages in order, up to the first that fails |
| PageFtl.PageFtl.WriteRequest | ftl/hlm_nobuf.c:143-230 | any number of pages: all are stored in the contents, or exactly which LPAs lose their data; success iff the addresses are in range and free blocks suffice for the round ends reached; cursor, log and free lists after |
| PageFtl.PageFtl.InvalidateLpa | ftl/algo/page_ftl.c:524-558 | exactly the LPAs of the range leave the contents; a range beyond the space is refused without effect |
| PageFtl.PageFtl.ReadLpa | ftl/algo/page_ftl.c:480-522 | the contents at the LPA, or nothing when it is not mapped |
| PageFtl.PageFtl.IsGcNeeded | ftl/algo/page_ftl.c:560-580 | needed iff fewer than 3 percent of the blocks are in state FREE, although the code divides and drops the remainder |
| PageFtl.PageFtl.VictimSelectionGreedy | ftl/algo/page_ftl.c:608-639 | the loop finds the block of `Greedy.Pick`, and none iff the dirty list holds only the active block |
| PageFtl.PageFtl.SelectVictims | ftl/algo/page_ftl.c:836-849 | the greedy choice of each unit, in unit order, iff every unit has one; all dirty and none active |
| PageFtl.PageFtl.RewritePage | ftl/algo/page_ftl.c:992-999 | allocating and mapping a page of carried subpages keeps invariant, contents, cursor and victims |
| PageFtl.PageFtl.MoveNext | ftl/algo/page_ftl.c:976-1000 | one compacted request: its live subpages leave the victims, content unchanged; fails only at an end of the round |
| PageFtl.PageFtl.MapBack | ftl/algo/page_ftl.c:976-1000 | all carried subpages are mapped back, content unchanged, no block erased; fails iff the requests reach the end of the round and a unit has no free block; a fresh round starts iff they reach it |
| PageFtl.PageFtl.Rewrite | ftl/algo/page_ftl.c:852-1014 | read, compaction, mapping and programming together: nothing live is left on the victims, no content changes, no block is erased, and the cursor has passed exactly the packed pages; fails iff out of blocks |
| PageFtl.PageFtl.ProgramPages | ftl/algo/page_ftl.c:1002-1014 | the flash holds the mapped pages, in order |
| PageFtl.ReclaimedIs | ftl/algo/page_ftl.c:836-1054 | rewriting and erasing together: the greedy victims, and no other block, have been erased |
| PageFtl.ReclaimedOnly | ftl/algo/page_ftl.c:836-1054 | conversely, the blocks a completed collection erased last, one per unit, can only be the greedy victims |
| PageFtl.PageFtl.EraseVictim | ftl/algo/page_ftl.c:1047-1054 | one victim is erased: contents unchanged, the log takes exactly this erase, and its unit gains a free block unless it failed |
| PageFtl.PageFtl.EraseVictims | ftl/algo/page_ftl.c:1017-1054 | contents unchanged; exactly the victims are erased, in order, each FREE or BAD as the device says; each unit gains a free block unless its erase failed |
| PageFtl.PageFtl.DoGc | ftl/algo/page_ftl.c:819-1057 | a collection changes no logical content; exactly when it is skipped, and then nothing changes; exactly when it fails; it erases exactly the greedy victims, writes their packed live subpages at the cursor, and its exact effect on log, cursor and each unit's free blocks |
| PageFtl.PageFtl.SealPage | ftl/algo/page_ftl.c:1120-1150 | one page is given up, invariant and contents kept |
| PageFtl.PageFtl.SealNext | ftl/algo/page_ftl.c:1120-1150 | one turn of the loop: the page under the cursor is given up and the cursor moves on |
| PageFtl.PageFtl.StoreSnapshot | ftl/algo/page_ftl.c:1106-1171 | the loop ends; no live subpage at or beyond the old cursor; no block is erased; the contents and the recorded tables agree |
| PageFtl.PageFtl.LoadSnapshot | ftl/algo/page_ftl.c:1061-1104 | the recorded tables give back the recorded contents and every recorded field of every block; a new round on fresh active blocks starts iff every unit has a free block |
| Balance.ListLength | ftl/algo/abm.c:269-559 | a list is as long as the number of blocks that belong on it |
| Balance.FreeCount | ftl/algo/page_ftl.c:560-580 | with level units the free counter is units times free blocks per unit |
| Balance.ThresholdPerUnit | ftl/algo/page_ftl.c:560-580 | with level units the device-wide threshold is the per-unit threshold |
| Balance.Threshold | ftl/algo/page_ftl.c:560-580 | above the threshold a unit has two free blocks, iff a chip has at least 34 blocks |
| Balance.NewFree | ftl/algo/abm.c:111-210 | on a new device every unit has all its blocks free |
| Host.CollectOnce | ftl/algo/page_ftl.c:819-1057 | one collection as a step from state to state, or its exact failure |
| Host.CollectKeeps | ftl/algo/page_ftl.c:819-1057 | such a step keeps the contents and erases one block per unit if every unit has a victim, none otherwise |
| Host.Do | ftl/algo/page_ftl.c:305-1057 | one operation: the state before it decides its outcome; its whole step on contents, cursor, log, erased blocks and free blocks; what a failed write loses |
| Host.WriteOutcome | ftl/hlm_nobuf.c:143-230 | how far a write gets is decided by its first bad page and the free blocks |
| Host.ChainTotals | ftl/algo/page_ftl.c:305-1057 | over any chain of steps: contents of a plain map, the log grown by the pages, rounds and collections made, and without bad blocks level units level, with one free block less per round ended and one more per collection |
| Host.Run | ftl/algo/page_ftl.c:305-1057 | refinement: any run of writes, trims and collections is a chain of operation steps and reads as the same run on a plain map; the last state decides why it stops |
| Host.HandedOutOnce | ftl/algo/page_ftl.c:305-355 | in every reachable state no page was handed out twice without an erase in between |
| Host.HandedOutInOrder | ftl/algo/page_ftl.c:305-355 | in every reachable state the pages of every block since its last erase came out in order from 0, up to its write pointer; a block used up at load hands out nothing until it is erased |
| Host.RoundHandedOut | ftl/algo/page_ftl.c:305-355 | in every reachable state each round, from creation or load on, handed out every page of its active blocks exactly once |
| Host.CheckKeeps | ftl/hlm_nobuf.c:239-275 | a check changes no content, and erases victims on every unit if it begins by collecting |
| Host.CheckLevel | ftl/hlm_nobuf.c:239-275 | without bad blocks level units stay level through a check and lose no free block |
| Host.CheckOndemandGc | ftl/hlm_nobuf.c:239-275 | the states it goes through: it collects exactly while free blocks are short, at most ten times, and stops early only at a collection that fails; so nothing changes when none is needed, and victims are erased when one is |
| Host.TwoFree | ftl/algo/page_ftl.c:560-580 | no collection needed and 34 blocks per chip imply two free blocks on every unit |
| Host.HostWrite | ftl/hlm_nobuf.c:177-319 | any number of pages through the allocating path after the check: the check goes through the states above and its last state decides the outcome; without bad blocks success iff the pages reach no more round ends than there are free blocks per unit |
| Host.ShortWrite | ftl/hlm_nobuf.c:277-319 | at most one round of pages reaches at most one end of a round |
| Host.LongWriteFails | ftl/hlm_nobuf.c:177-319 | from every level state, enough pages through the allocating path run out of blocks |
| Host.Restart | ftl/algo/page_ftl.c:1061-1171 | every LPA reads after a restart as before it; every block keeps its erase count and use but for the fresh active ones; a new round can start iff every unit had a free block |
| HostRequest.MapUnit | ftl/hlm_nobuf.c:143-209 | one flash request: a read-modify-write gets a new page, any other the page of its LPA; exactly when it fails |
| HostRequest.MakeRwReq | ftl/hlm_nobuf.c:105-236 | all requests of a host write: success iff all are reachable and free blocks suffice for the round ends its read-modify-writes reach; contents, cursor, log and free lists after; at which request it fails and exactly what that loses |
| HostRequest.OverwriteUnit | ftl/hlm_nobuf.c:169-172 | a page that holds one LPA is written in place and only that LPA changes |
| HostRequest.BuildUnits | ftl/hlm_reqs_pool.c:364-419 | the split's requests with their data: the host's buffers, and for read-modify-writes the rest from the flash |
| HostRequest.MergeCuts | devices/ramdrive/dev_ramssd.c:214-228 | the kernel pages put into a page are the ones read back from it |
| HostRequest.RangeReads | ftl/hlm_nobuf.c:105-236 | after a host write its kernel pages read as the host's buffers and every other one as before, but for holes of pages never written |
| HostRequest.RangeReachableIff | ftl/hlm_nobuf.c:160-198 | all requests are reachable iff whole units have been written before and partial ones are in range |
| HostRequest.RangeRmw | ftl/hlm_reqs_pool.c:405-411 | the number of allocating requests of a host write, which is at most two |
| HostRequest.TwoPages | ftl/hlm_nobuf.c:177-198 | exactly when two pages run out of blocks |
| HostRequest.WriteSectors | ftl/hlm_nobuf.c:277-319 | a host write from sectors to flash: exactly when it is malformed, the states of the check, exactly when it succeeds, what every kernel page then reads, and exactly what a failure loses; without bad blocks it runs out of blocks only with one-page rounds and one free block |
| HostRequest.OnePageRoundsFail | ftl/hlm_nobuf.c:277-319 | counterexample from a new device: a reachable write fails for lack of blocks |
| HostRequest.TrimRequest | ftl/hlm_nobuf.c:93-103 | a host trim removes exactly the part of its range inside the logical space |
| Extents.ExtentFtl.constructor | ftl/algo/page_ftl.c:361-422 | starts with nothing handed out |
| Extents.ExtentFtl.GetFreePpas | ftl/algo/page_ftl.c:361-422 | a contiguous range of exact length inside the unit's active block, never handed out before; -1 iff the block is used up and its unit has no free block; the whole new state |
| Extents.ExtentFtl.Erase | ftl/algo/abm.c:345-431 | an erase keeps the offset, so pages handed out stay behind it |
| Extents.ExtentFtl.Allocate | frontend/user/lbl.c:67-91 | the caller's loop ends with the wanted number of distinct new pages iff they are within reach, otherwise at a unit with its active block used up and no free block; it yields nothing once every block is used up |
| Extents.ReachStep | ftl/algo/page_ftl.c:361-422 | one call against the blocks left on the units in cursor order |
| Extents.QueuesRotate | ftl/algo/page_ftl.c:400-419 | using up a block and taking the next one rotates these queues |
| Extents.LevelReach | ftl/algo/page_ftl.c:361-422 | on a level device of unused blocks the reach is one page short of f blocks per unit and one more block |
| Extents.Append | frontend/user/lbl.c:79-88 | the range is appended page by page and the pages stay new and distinct |
| Extents.TakeTurn | ftl/algo/page_ftl.c:361-422 | on two blocks, using one up and erasing it makes the other active |
| Extents.ReuseIsEmpty | ftl/algo/page_ftl.c:361-422 | counterexample: a call returns no page although a block is free |
| DftlMap.CleanMatchesFlash | ftl/algo/dftl_map.c:328-423 | a CLEAN slot's memory copy equals its flash copy |
| DftlMap.DftlMap.constructor | ftl/algo/dftl_map.c:60-118 | the new cache stands for the unmapped flat table |
| DftlMap.DftlMap.GetEntry | ftl/algo/dftl_map.c:171-204 | the flat table's entry, iff the slot is in memory |
| DftlMap.DftlMap.SetEntry | ftl/algo/dftl_map.c:206-229 | the flat table changes in that entry and nowhere else; the slot becomes most recently used |
| DftlMap.DftlMap.Store | ftl/algo/dftl_map.c:206-250 | for every slot with a memory copy the flat table changes in that entry and nowhere else; the cache stays in order iff the slot was in memory |
| DftlMap.DftlMap.InvalidateEntry | ftl/algo/dftl_map.c:231-250 | for every slot with a memory copy exactly that entry of the flat table becomes invalid; the cache stays in order iff the slot was in memory |
| DftlMap.DftlMap.CheckEntry | ftl/algo/dftl_map.c:252-276 | missing iff the slot is not in memory |
| DftlMap.DftlMap.MissingDirPrepare | ftl/algo/dftl_map.c:278-326 | the flat table is unchanged; a slot on flash is reported for loading the first time only |
| DftlMap.DftlMap.FinishLoad | ftl/algo/dftl_map.c:328-375 | the slot is CLEAN in memory and the flat table unchanged |
| DftlMap.DftlMap.PrepareEviction | ftl/algo/dftl_map.c:377-403 | the least recently used slot iff the cache is full; a modified one is programmed; flat table unchanged |
| DftlMap.DftlMap.FinishEviction | ftl/algo/dftl_map.c:405-423 | the slot lives on flash, a modified one at its new page; flat table unchanged |
| DftlHost.StartLoads | ftl/hlm_dftl.c:125-145 | every needed slot is in memory or loading, each loading slot once |
| DftlHost.LoadMissing | ftl/hlm_dftl.c:125-153 | everything needed is in memory; exactly the needed slots on flash were read, each once |
| DftlHost.ApplyMeaning | ftl/hlm_dftl.c:155-161 | after the forwarded updates an LPA has the last entry written to it, or the one it had |
| DftlHost.Forward | ftl/hlm_dftl.c:155-161 | the flat table takes exactly the forwarded updates, in order |
| DftlHost.StartEvictions | ftl/hlm_dftl.c:163-182 | the least recently used slots, as many as bring the cache below its limit but at most one per LPA, are programmed before they leave |
| DftlHost.Evict | ftl/hlm_dftl.c:163-191 | the flat table is unchanged; exactly those slots have gone to flash, the others keep their place |
| DftlHost.Serve | ftl/hlm_dftl.c:125-191 | a whole request: exact loads; afterwards every LPA looks up its last update or what it had; the cache below its limit again |
| StubProxy.StepInv | frontend/user/dev_proxy.c:181-309 | every step of submitters, device and proxy thread keeps the protocol invariant |
| StubProxy.RunsAreSafe | devices/common/dev_stub.c:329-422 | in every interleaving an admitted request is never refused, ends at most once and is otherwise in exactly one place; every write that has ended was given to the device with its own data, and a pending one exactly when its submitter has left it |
| StubProxy.AdmittedIffFree | frontend/user/dev_proxy.c:185-235 | a new request is admitted iff its slot is empty, whatever the other units do; otherwise nothing changes |
| StubProxy.OrderlyRunsReadTheirData | frontend/user/dev_proxy.c:264-302 | if a unit's next request waits for the end of the last, every read returns the device's answer |
| StubProxy.EagerWriterOverwritesRead | frontend/user/dev_proxy.c:264-302 | from every state with a taken read, a writer that does not wait overwrites its data |
| StubProxy.TakenIsReached | frontend/user/dev_proxy.c:252-281 | such a state is reached from the start by an orderly run |
| StubProxy.ReadCanBeOverwritten | frontend/user/dev_proxy.c:264-302 | a run from the start in which a read returns a later write's data |
| StubProxy.NotStuck | devices/common/dev_stub.c:85-104 | a request in a unit always has its next step enabled |
| StubProxy.ThreadProgress | frontend/user/dev_proxy.c:236-309 | each step of the proxy thread ends a finished request or brings its end nearer |
| StubProxy.OthersDoNotDelay | frontend/user/dev_proxy.c:181-234 | no step of anyone else moves that end away |
| StubProxy.StepsLeftBound | frontend/user/dev_proxy.c:236-309 | the distance is at most two rounds of the thread |
| StubProxy.CompletionIsDelivered | frontend/user/dev_proxy.c:236-309 | no completion is lost: a request the device finished is ended after that many thread steps, whatever the others do |
| PriorQueue.CreateInv | ftl/queue/prior_queue.c:102-132 | new queues satisfy the invariant |
| PriorQueue.EnqueueInv | ftl/queue/prior_queue.c:151-190 | enqueuing keeps stamps, tags and their order |
| PriorQueue.DequeueInv | ftl/queue/prior_queue.c:217-248 | handing out an item keeps the invariant |
| PriorQueue.RemoveHas | ftl/queue/prior_queue.c:250-265 | removing an item in service removes its queue's head and nothing else |
| PriorQueue.RemoveInv | ftl/queue/prior_queue.c:250-265 | removal and the step to the next tag keep the invariant |
| PriorQueue.OneInServicePerAddress | ftl/queue/prior_queue.c:217-248 | no two requests for one address are in service together |
| PriorQueue.OldestOfAddressFirst | ftl/queue/prior_queue.c:217-248 | what is handed out is the oldest item of its address in any queue |
| PriorQueue.NeverBlocked | ftl/queue/prior_queue.c:217-248 | looking only at heads cannot block: the oldest item of all is in service or handed out next |
| Scheduler.DispatchedHalf | ftl/llm_mq.c:234-276 | the half of a read-modify-write that is dispatched is the one its address is set for |
| Scheduler.StepInv | ftl/llm_mq.c:108-138 | every step of submitters, dispatcher, device and completion handler keeps the invariant |
| Scheduler.RunsAreSafe | devices/ramdrive/dev_ramssd.c:657-719 | in every run the device slot is empty at submission, a unit is locked iff exactly one request is in flight there, one address is served in order, and a host request ends once, iff all its requests are reported |
| Scheduler.RmwReadsThenWrites | ftl/llm_mq.c:288-331 | a read-modify-write writes only after it has read and is reported once both are served |
| Scheduler.DeviceDoesEachOnce | devices/ramdrive/dev_ramssd.c:657-719 | in every run the device does each half of a request at most once, at its unit and in queue order per address; a request is reported only after the device has done all of it, the read half before the write half |
| Scheduler.IdleUnitStarts | ftl/llm_mq.c:106-140 | a unit with nothing in flight can start its head as soon as no older request for that address is queued, whatever the other units do |
| Scheduler.StepWorks | ftl/llm_mq.c:108-138 | every step but an arrival uses up work |
| Scheduler.NotStuck | ftl/llm_mq.c:108-138 | no deadlock: while a host request is not ended some step is enabled |
| Scheduler.RunsAreBounded | ftl/llm_mq.c:108-331 | without arrivals a run is no longer than the work left |
| Scheduler.AllHostRequestsEnd | ftl/hlm_nobuf.c:321-333 | a run without arrivals carried on as long as possible ends every host request |
| SegmentFtl.LpaSplits | ftl/algo/block_ftl.c:117-133 | an address decodes to an in-range (segment, block, page) that encodes it |
| SegmentFtl.LpaJoins | ftl/algo/block_ftl.c:117-133 | every in-range triple encodes to an address that decodes to it |
| SegmentFtl.FreeBlockForSegment | ftl/algo/block_ftl.c:169-172 | pigeonhole: without losses every chip has a free block for an unallocated segment |
| SegmentFtl.SetPageOk | ftl/algo/block_ftl.c:598-718 | the counter changes that go with each change of a page state |
| SegmentFtl.SegmentFtl.constructor | ftl/algo/block_ftl.c:137-238 | every segment is empty, the counters are zero and no block is lost |
| SegmentFtl.SegmentFtl.IsAllocated | ftl/algo/block_ftl.c:324-348 | none or all of the segment's blocks are allocated |
| SegmentFtl.SegmentFtl.AllocateSegment | ftl/algo/block_ftl.c:350-383 | succeeds iff every chip has a free block, always without losses; then one block of every chip, FREE before and CLEAN now, and no other block changes |
| SegmentFtl.SegmentFtl.TakeEntry | ftl/algo/block_ftl.c:358-375 | one block of the entry's own chip, fails only when a chip had none |
| SegmentFtl.SegmentFtl.GetFreePpa | ftl/algo/block_ftl.c:385-480 | the entry's block and page, page states and other segments unchanged; no block and dead segment exactly when stated, with their effects; never out of blocks without losses |
| SegmentFtl.SegmentFtl.MapLpaToPpa | ftl/algo/block_ftl.c:598-651 | succeeds iff the page is free and the block the entry's own; counters equal the page states |
| SegmentFtl.SegmentFtl.InvalidateLpa | ftl/algo/block_ftl.c:653-718 | the page is invalid and counters equal the page states, for valid, free and already trimmed pages |
| SegmentFtl.SegmentFtl.GiveBack | ftl/algo/block_ftl.c:766-820 | exactly the entry's block is erased, which gives its chip a free block unless bad |
| SegmentFtl.SegmentFtl.SweepEntry | ftl/algo/block_ftl.c:766-820 | one turn of the two sweeps: the entry is given back in the sweep that is due for it and in no other, and exactly the entries passed so far are |
| SegmentFtl.SegmentFtl.EraseSegment | ftl/algo/block_ftl.c:755-824 | each block of the segment is BAD if it was written and its erase failed, FREE otherwise; its chip gains a free block exactly then; no other block changes |
| SegmentFtl.SegmentFtl.DoGcSegment | ftl/algo/block_ftl.c:826-872 | the same for its blocks and chips; an allocated segment becomes empty with zero counters; for an unallocated one the counters are right iff they were zero |
| RequestSplit.CreatePool | ftl/hlm_reqs_pool.c:47-66 | accepted iff the mapping unit is the request or a kernel page smaller than it; the sizes multiply back; in-place mode iff a whole request is larger than a kernel page |
| RequestSplit.FillUnit | ftl/hlm_reqs_pool.c:376-396 | the pages of one mapping unit get their buffers or holes; fails iff the buffers run out |
| RequestSplit.FillRequest | ftl/hlm_reqs_pool.c:367-417 | one request with its addresses, slots and type, also when the range ends inside it |
| RequestSplit.SplitLoop | ftl/hlm_reqs_pool.c:364-419 | all requests of the range; succeeds iff buffers and pages match in number |
| RequestSplit.SplitWrite | ftl/hlm_reqs_pool.c:343-430 | exactly when a write can be split, and what every request then holds |
| RequestSplit.SlotsDistinct | ftl/hlm_reqs_pool.c:364-419 | no kernel page has two slots |
| RequestSplit.EveryPageHasItsSlot | ftl/hlm_reqs_pool.c:364-419 | every page of the range has a slot, which holds its buffer in the mapping unit it belongs to |
| RequestSplit.RmwIffPartlyWritten | ftl/hlm_reqs_pool.c:405-411 | a request is a read-modify-write iff in-place mode is on and its mapping unit is not wholly written |
| RequestSplit.OnlyEndsAreRmw | ftl/hlm_reqs_pool.c:364-419 | of the requests of a host write only the first and the last can be a read-modify-write |
| RequestSplit.OnlyEndsArePartly | ftl/hlm_reqs_pool.c:348-356 | only the first and the last mapping unit of a range can be written in part |
| RequestSplit.TrimRange | ftl/hlm_reqs_pool.c:222-247 | exactly the mapping units that lie wholly inside the range |
| Kmp.BuildTable | common/3rd/utstring.h:156-192 | every entry is the longest border followed by a different character, the last the longest proper border |
| Kmp.BuildTableR | common/3rd/utstring.h:195-233 | the same of the needle read from the right |
| Kmp.ScanBack | common/3rd/utstring.h:236-267 | falling back in the table skips no match |
| Kmp.Scan | common/3rd/utstring.h:236-267 | the least match, or -1 iff there is none |
| Kmp.ScanR | common/3rd/utstring.h:270-299 | the greatest match, or -1 iff there is none |
| Kmp.Find | common/3rd/utstring.h:303-345 | the least match at or after the start, or -1 iff there is none or the needle is empty |
| Kmp.FindR | common/3rd/utstring.h:348-387 | the greatest match ending at or before the start, or -1 iff there is none or the needle is empty |

## Left out

- Kernel and user plumbing: module setup, block I/O glue, ioctl copies, memory mapping, device drivers, timers and worker threads have no content to prove.
- Memory allocation, pad buffers, creation and destruction failures, statistics and timing.
- PageFtl.PageFtl.WriteRequest: is the path that allocates (ftl/hlm_nobuf.c:177-198), for any list of pages; `HostRequest.MakeRwReq` has both paths. A request is one step; writes still queued at the device when a read arrives are modelled in the scheduler only.
- HostRequest.WriteSectors: is for devices with one subpage per page, the only ones whose host writes allocate; with several subpages the page-level lemmas on writing in place take its place. The read of a read-modify-write and its write are one step here and two in the scheduler.
- PageFtl.PageFtl.ReadLpa: the subpage offset that the read path uses to place data in the request buffer is folded into the flat subpage offset.
- Host.Run: runs use the single-page allocator only, because it and the extent allocator keep separate cursors over the same blocks.
- Extents.ExtentFtl.Allocate: the mapping of the allocated pages and the command parser around the loop are left out.
- DftlMap.DftlMap.SetEntry: is for slots on the LRU list, because unlinking any other follows poisoned pointers (common/3rd/ulist.h:139-144).
- DftlHost.Serve: garbage collection of DFTL and its loads are left out, and so is `h4h_dftl_init_mapping_table`, which does not reset the cache count.
- Scheduler.RunsAreSafe: the device accepts every request (the error path of the dispatcher unlocks twice); counting a finished request and comparing the count are one step; queue keys are compared in full, while the hash table compares their low 32 bits.
- StubProxy.RunsAreSafe: a unit's data page and OOB page are one value, and the device accepts every request.
- RequestSplit.SplitWrite: alignment masks are written as remainders, which agree with them for powers of two; read requests and the pool's lists of request items are left out.
- SegmentFtl.SegmentFtl.GetFreePpa: the counter of dead segments, which repeated trims over-count, and the block-merge collection, which leaves a segment partly allocated, are left out; the block manager is used with page status tables, which this FTL never touches.
- Kmp.Find: lengths are unbounded, while the code casts them to int; starts that point outside the string are excluded.
- Bad-block scans, the random victim policy, the other schedulers and FTLs (`llm_rmq.c`, `hlm_rsd.c`, `no_ftl.c`), wear statistics, and the RAM device's byte layout.
