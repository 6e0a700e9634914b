# Kataan engine core

A verified model of the parts of the Kataan JavaScript engine whose correctness is about whole
runs rather than single calls. Every contract is about all inputs, all runs or all reachable
states; `dafny verify dfyconfig.toml` checks them.

## What is modelled

**The managed heap and its collectors** (`Heap*.dfy`, `NurserySweep`, `Reachability`,
`CollectionLaws`, `Marking`, `Collector`, `Incremental`, `Compaction`, `Compactor`, `TableRuns`).
A slot table addressed by index and generation; a free list whose consumed part records what was
allocated since the last collection; a write barrier with four slot states and an appended-to
position; minor and full mark-sweep, weak (ephemeron) entries, moving compaction, an incremental
marker. `HeapState` gives every operation as a transition on values, the class `Heap` and the
collector methods are proved to carry them out in place, `HeapRuns` puts mutator and collector
steps into one machine, and `TableRuns` says what holds of it whatever the program does. A heap
value is a kind (plain, interior-mutable, or a container of two-word entries), its words in order,
each a reference or not, and the extra edges a `scan` hook would report for it. A store is
modelled as the borrow together with the value the borrower leaves.

**Hidden classes and objects** (`Layouts`, `LayoutIndex`, `LayoutTable`, `ObjectStorage`,
`Objects`, `LayoutRuns`, `ObjectRuns`, `OwnKeys`). A tree of shared layouts whose children are
remembered by weak links, its hashed index, its record of slots that may not be Numbers, and
objects over it in inline, near and far slots or in a dictionary with tombstones, with their
inline caches. A layout's identity stands for its reference-counted node: `Release` is the last
holder letting go, a step of its own, and an identity is never reused, as a weak link keeps the
node's address from being.

**Ropes** (`Wtf8`, `Wtf8Ranges`, `Wtf8Words`, `Wtf8Order`, `RopeNodes`, `RopeFill`, `RopeSlices`,
`RopeWalks`, `Ropes`): string trees that agree with the flat UTF-16 string, over the WTF-8 codec
they rest on. Nodes live in an arena, each younger than those it is built over. Every string is
within the engine's length limit, which a concatenation enforces.

**Array storage** (`ArrayStorage`), **the pool allocator** (`FreeLists`, `PoolRuns`, `PoolLinks`,
`PoolSpares`), **calendar arithmetic** (`IsoDates`, `DateDifference`), **JSON** (`JsonText`,
`Json`, `JsonParser`, `JsonHeap`) and **scope slot caches** (`ScopeSlots`).

## Where the code and its comments differ

- Forwarding is idempotent after any number of compactions, not only while the compaction
  counter has not wrapped: each compaction restamps every slot it keeps, so no older stamp
  survives to be confused (`Compaction.ForwardIdempotent`, and for every state of every run
  `TableRuns.TableSurvivesAnyRun`).
- A spare region is never too short for the block a refill wants, because only tails of at
  least the largest class are handed back, although the loop is written to allow for it
  (`PoolRuns.OneSpareSuffices`).
- An array used as a queue keeps its head in 32 bits, and nothing keeps the head from wrapping
  but the reclaiming of dead slots, which bounds it by twice the longest the array has been. So
  arrays of at most `b` elements are right in every run, however long, exactly when `b` is below
  2^31 - 7 (`ArrayStorage.ArraysAreSequencesIff`). The engine refuses to let arrays grow past
  `max_array_len`, 100,000,000 unless set otherwise (`src/limits.rs:55`, `src/realm.rs:5866-5876`).
- A printed structure is reported as circular also when it is only too deep; the two are the
  same condition (`JsonHeap.GivesUpIffTooDeep`).

## Assumptions

- The program stores only handles it was given. In a run with compactions it also stores only
  live ones and leaves freeing to the collector. `TableRuns` assumes neither.
- The system's allocator gives memory it has not given before; each section under the stash's
  lock is one step, with the thread's own work around it; a read of the unlocked hint may be stale.
- Layouts that objects adopt are children made by `add`. A transition cache is armed only by
  adds of its one key.
- Frame and scope generations, and identities, do not run out of 64 bits.

## Model

| member | source | states |
|---|---|---|
| HeapTypes.HeadAndTailCoverTrace | src/cell.rs:1734-1778 | The references traced before a position and those traced from it on are together exactly all of them, for arrays cut anywhere and for two-word container entries. |
| HeapInvariants.AllocInv | src/heap.rs:676-722 | An allocation keeps every invariant, returns a young handle no earlier allocation returned, holding the value given, and disturbs no other object. |
| HeapInvariants.RememberInv | src/heap.rs:856-867 | After the barrier of a mutable borrow the slot owes nothing: the old object is on the remembered list once and may be rewritten freely. |
| HeapInvariants.RememberFromInv | src/heap.rs:796-829 | Recording only a scan position is sound: nothing before it holds a young reference the barrier has not accounted for. |
| HeapInvariants.StoreInv | src/heap.rs:757-784 | A store through a mutable borrow keeps every invariant, the write barrier included. |
| HeapInvariants.AppendInv | src/heap.rs:796-829 | A store through an appending borrow that leaves the earlier references alone keeps every invariant. |
| HeapInvariants.InsideInv | src/gc.rs:55-57 | An interior-mutable object changed behind the heap's back keeps every invariant: once old it stays remembered for good. |
| HeapInvariants.SwapInv | src/heap.rs:876-907 | Exchanging two objects keeps every invariant, whichever of them is old, young or interior-mutable. |
| HeapInvariants.SwapExchanges | src/heap.rs:876-907 | Two live objects change places and both slots become due for rescanning; no other object changes; with a stale handle, or one slot twice, nothing does. |
| HeapInvariants.SwapIsBarrierThenExchange | src/heap.rs:876-907 | A swap is the two barriers followed by the exchange of the two values. |
| HeapInvariants.RecordEdgeInv | src/heap.rs:1258-1264 | The explicit edge record puts an old container of a young target on the remembered set, changes no object, and keeps every invariant. |
| HeapInvariants.FreeInv | src/heap.rs:1336-1385 | A free keeps every invariant: the slot goes on the free list once or is retired, the handle dies, every other object stays. |
| HeapInvariants.ReserveFreeInv | src/heap.rs:634-639 | A reservation keeps every invariant and every live object. |
| HeapInvariants.ReserveFreeFills | src/heap.rs:634-639 | Right after a collection a reservation leaves at least as many free slots as asked for. |
| HeapInvariants.EmptyInv | src/heap.rs:478-492 | A new heap meets every invariant and is empty. |
| HeapSweepLaws.SettleAllOutcome | src/heap.rs:1507-1541 | Settling a list of slots gives each listed slot its fate once, however often it is listed: freed slots go back once, sticky objects are remembered once, unlisted slots stay. |
| HeapSweepLaws.RescanOutcome | src/heap.rs:1076-1111 | The rescanned slots leave the remembered list unless interior-mutable. |
| HeapSweepLaws.MinorSlots | src/heap.rs:1076-1166 | A sweep that visits only rescanned and consumed slots leaves every slot as a pass over the whole table would: the barrier and the young tracking make the partial visit complete. |
| HeapSweepLaws.MinorLists | src/heap.rs:1076-1166 | After a minor sweep the free list gained exactly the freed, non-retired slots, once each, and the remembered list is exactly the sticky ones, once each. |
| HeapSweepLaws.MinorRemembered | src/heap.rs:1112-1166 | The remembered set ends as exactly the interior-mutable objects. |
| HeapSweepLaws.MinorBook | src/heap.rs:1076-1166 | After a minor collection nothing is young and the slot table is exact again. |
| HeapSweepLaws.FullSlots | src/heap.rs:954-1018 | A full sweep frees exactly the live objects outside the kept set and ages the rest. |
| HeapSweepLaws.FullTable | src/heap.rs:954-1018 | After a full sweep the free list is exact. |
| HeapSweepLaws.FullBook | src/heap.rs:954-1018 | After a full sweep nothing is young and all of the table's bookkeeping holds. |
| NurserySweep.SweepYoungFast | src/heap.rs:1411-1470 | The block-moving sweep yields the slots, the free list in its order, the remembered list and the count that settling entry by entry yields, with slots listed twice and retired slots. |
| NurserySweep.CopyDown | src/heap.rs:1446-1448 | Copying a run down over the gap, entry by entry within one overlapping list, moves it as one block. |
| NurserySweep.SettleConsumedOneByOne | src/heap.rs:1112-1166 | The loop that writes entries back one at a time yields the same. |
| NurserySweep.SettleYoungFast | src/heap.rs:1474-1499 | What becomes of one visited slot: kept, freed for reuse, or retired. |
| HeapTable.Heap.constructor | src/heap.rs:478-492 | A new heap is the empty one. |
| HeapTable.Heap.Alloc | src/heap.rs:676-722 | Allocates by reusing the next free slot, topping the list up, or growing; with the invariants, the handle is new and everything else stays. `None` stands for the source's panic when no slot index is left. |
| HeapTable.Heap.TopUpFree | src/heap.rs:649-674 | Adds vacant slots under the still-free entries, only when the list and the floor allow. |
| HeapTable.Heap.ReserveFree | src/heap.rs:634-639 | As specified, keeping the invariants. |
| HeapTable.Heap.Free | src/heap.rs:1336-1385 | Returns what the handle held; afterwards the handle is dead, others are untouched and the invariants hold. |
| HeapTable.Heap.Remember | src/heap.rs:856-867 | The barrier as specified. |
| HeapTable.Heap.Store | src/heap.rs:768-784 | A mutable borrow and the value left in it, keeping the invariants. |
| HeapTable.Heap.StoreAppended | src/heap.rs:796-829 | An appending borrow and the value left in it, keeping the invariants. |
| HeapTable.Heap.Swap | src/heap.rs:876-907 | Exchanges two objects as specified, keeping the invariants. |
| HeapTable.Heap.RecordEdge | src/heap.rs:1258-1264 | Records an old-to-young edge as specified. |
| HeapTable.Heap.LiveHandles | src/heap.rs:925-935 | Exactly the live handles, in slot order. |
| HeapTable.Heap.PromoteYoung | src/heap.rs:1036-1048 | Promotes a young object, once. |
| HeapTable.Heap.SweepYoung | src/heap.rs:1076-1166 | The imperative minor sweep is the specified one and returns how many objects it freed. |
| HeapTable.Heap.Sweep | src/heap.rs:954-1018 | The imperative full sweep is the specified one and returns how many objects it freed. |
| HeapTable.Heap.FoldAllocs | src/heap.rs:517-520 | Folding the allocation count makes the stored length the number of live slots. |
| HeapTable.Heap.RememberedViolation | src/heap.rs:1175-1227 | Answers none exactly when the write barrier and the young tracking hold; otherwise names an offending object and edge. |
| Reachability.LeastIsUnique | src/gc.rs:304-339 | There is at most one least closed set. |
| Reachability.MeetIsLeast | src/gc.rs:289-339 | What all closed sets share is the least closed set. |
| Reachability.KeptIsReachable | src/gc.rs:226-285 | Without weak entries what is kept is exactly what some path of edges reaches from a root. |
| Reachability.ReachableIsKept | src/gc.rs:289-339 | With weak entries, whatever a path reaches from a root is kept. |
| Reachability.DeadKeysAddNothing | src/gc.rs:289-339 | No weak entry keeps its own key alive: dropping the entries with unmarked keys changes nothing. |
| CollectionLaws.SurvivorsKeepTheirEdges | src/gc.rs:410-505 | No survivor keeps an edge to an object a collection freed. |
| CollectionLaws.MinorIsSound | src/gc.rs:410-505 | A minor collection, from any state meeting the invariants, retains exactly the least set holding roots and old objects, leaves nothing young, and restores every invariant. |
| CollectionLaws.MinorKeepsReachable | src/gc.rs:410-505 | Nothing reachable from the roots through any mix of old and young objects is freed by a minor collection or loses its value. |
| CollectionLaws.MajorIsExact | src/gc.rs:344-385 | A full collection leaves live exactly the least set of its mark phase, with every invariant restored. |
| CollectionLaws.FullSweepIsExact | src/gc.rs:368-385 | The full sweep alone keeps exactly the live objects of the set it is given. |
| CollectionLaws.MajorKeepsReachable | src/gc.rs:344-385 | A full collection frees nothing a path reaches from its roots. |
| Marking.MarkSet.Insert | src/gc.rs:178-192 | Inserting reports whether the handle was new, and forgets any other generation of its slot. |
| Marking.MarkSet.Members | src/gc.rs:215-221 | Lists exactly the marked handles, in slot order. |
| Marking.Drain | src/gc.rs:247-285 | Draining the worklist terminates with nothing grey and the marking invariant kept. |
| Marking.MarkWithEphemerons | src/gc.rs:304-339 | The mark loop with its hooks terminates, and what it marked is exactly the least set holding the live roots and closed under edges, scanned edges and "key marked, so value marked". |
| Collector.MarkMinor | src/gc.rs:430-494 | The minor mark phase, which never visits unremembered old objects, promotes exactly the young objects that must be kept. |
| Collector.CollectMinor | src/gc.rs:410-428 | A whole minor collection carries out the sound transition: the right objects retained, invariants restored, counts right. |
| Collector.Collect | src/gc.rs:344-385 | A whole major collection leaves exactly the least set and restores the invariants. |
| Incremental.RunKeeps | src/gc.rs:608-666 | In every interleaving of bounded marking steps, allocations, frees and shaded stores, no scanned object points to an unmarked live one. |
| Incremental.IncrementalIsSafe | src/gc.rs:608-666 | When nothing is grey, everything then reachable from the starting roots is marked. |
| Incremental.UnshadedAllocationIsWhite | src/gc.rs:608-666 | The limit of that promise: an object allocated during marking is unmarked until shaded. |
| Incremental.MarkingFinishes | src/gc.rs:630-646 | As many scans as there are live white objects and grey entries leave nothing grey. |
| Incremental.IncrementalMarker.MarkGrey | src/gc.rs:622-626 | Shades a handle once. |
| Incremental.IncrementalMarker.Step | src/gc.rs:630-646 | A bounded step is that many scans, and says whether marking is complete. |
| Incremental.IncrementalMarker.Sweep | src/gc.rs:657-666 | Frees exactly the live objects marking did not reach. |
| Compaction.CompactLayout | src/heap.rs:1281-1331 | After compaction the slots are dense, in the old order, with ages kept and values relocated. |
| Compaction.ForwardKeepsOrder | src/heap.rs:1281-1331 | Forwarding is injective and order-preserving on kept handles. |
| Compaction.ForwardIdempotent | src/heap.rs:1281-1331 | Forwarding twice is forwarding once, for every handle, while live generations are low ones or the last compaction's. |
| TableRuns.OpKeepsTable | src/heap.rs:676-1331 | Every operation keeps the table exact, counted and tracked, and its generations in order, whatever was stored, freed or left dangling. |
| TableRuns.TableSurvivesAnyRun | src/heap.rs:1281-1331 | Hence so does every run from the empty heap, with any number of compactions; and in each of its states forwarding twice is forwarding once. |
| Compaction.CompactBook | src/heap.rs:1281-1331 | The table after any compaction is exact, all tracked and remembered as the next minor collection needs. |
| Compaction.CompactInv | src/gc.rs:542-568 | A compacted heap whose kept objects had no edge out of the kept set meets every invariant again. |
| Compaction.CompactIsIsomorphic | src/gc.rs:542-568 | Each object reachable before is, at its forwarded handle, reachable from the rewritten roots with value and edges relocated, and every object of the new table arises so. |
| Compaction.StaleEdgeCanAlias | src/heap.rs:710-722 | A concrete heap where, after compaction, an allocation returns a handle that a kept object's stale edge already names: uniqueness of handles is for runs without compaction. |
| Compactor.MoveKept | src/heap.rs:1281-1331 | The imperative move of kept objects to the front is the specified one, with its forwarding pairs. |
| Compactor.Relocate | src/gc.rs:577-583 | Rewrites every live object through the forwarding, and nothing else. |
| Compactor.CompactWith | src/gc.rs:542-568 | A whole moving collection: the heap and the roots are the specified ones. |
| HeapRuns.OpKeepsInv | src/heap.rs:676-1331 | Every mutator and collector operation keeps every invariant: exact table, tracked young objects, remembered set, count, write barrier. |
| HeapRuns.RunKeepsInv | src/heap.rs:676-1331 | Hence every run does, from the empty heap, whatever the number of compactions. |
| HeapRuns.HandlesAreUnique | src/heap.rs:676-722 | Two allocations of a run without a compaction between them never return the same handle. |
| HeapRuns.ReachableSurvivesRun | src/gc.rs:344-568 | An object each collection of a run can reach, and the program neither frees nor rewrites, is live at the end under its forwarded handle, with its value and the references in it forwarded alike. |
| HeapRuns.DisciplinedRunIsSound | src/gc.rs:344-568 | For a program that stores only live handles and leaves freeing to the collector nothing ever dangles, through minor, full and moving collections. |
| ArrayStorage.ShiftRefines | src/cell.rs:791-818 | `shift` takes the first element off the sequence; it does so if and only if the queue's 32-bit head does not wrap. |
| ArrayStorage.WrapLosesTrack | src/cell.rs:791-818 | A wrapped head brings the dead prefix back: the array then holds more elements than it should. |
| ArrayStorage.LongQueueLosesTrack | src/cell.rs:791-818 | A run from a fresh array that gets there: an array of 2^31 - 7 elements whose first is taken and another put last, 2^32 - 1 times, and shifted once more. |
| ArrayStorage.ArraysAreSequencesIff | src/cell.rs:726-921 | Arrays of at most b elements hold and return what sequences do, in every run of any length, if and only if b is below 2^31 - 7. |
| ArrayStorage.UnshiftRefines | src/cell.rs:827-860 | `unshift` puts its elements in front, in every storage mode. |
| ArrayStorage.PushRefines | src/cell.rs:875-881 | `push` appends, in every storage mode. |
| ArrayStorage.ExtendRefines | src/cell.rs:884-890 | Appending many appends them in order. |
| ArrayStorage.PopRefines | src/cell.rs:893-902 | `pop` takes the last element off. |
| ArrayStorage.SpliceRefines | src/cell.rs:867-872 | `splice` replaces the range and returns what was there. |
| ArrayStorage.ApplyRefines | src/cell.rs:726-921 | Every operation between states of at most b elements is the sequence operation, results included, and keeps a queue's head under 2 * b + 14. |
| ArrayStorage.AmortisedStep | src/cell.rs:726-921 | One operation moves no more elements, on the potential, than a constant times its weight: what an end operation adds, for a splice the length. |
| ArrayStorage.RunIsCheap | src/cell.rs:726-921 | A run of any number of operations, the array at no time too long, refines the sequence, results included, and moves a number of elements linear in the starting potential and the operations' weight. |
| ArrayStorage.FreshArrayIsCheap | src/cell.rs:665-680 | From a fresh array of n elements, operations of total weight w move at most a constant times n + w elements, however many they are. |
| ArrayStorage.ArrayElems.Spill | src/cell.rs:908-921 | Moves the elements to a vector, contents unchanged. |
| ArrayStorage.ArrayElems.ShiftFront | src/cell.rs:791-818 | The in-place operation is the specified one. |
| ArrayStorage.ArrayElems.UnshiftFront | src/cell.rs:827-860 | The in-place operation is the specified one. |
| ArrayStorage.ArrayElems.PushBack | src/cell.rs:875-881 | The in-place operation is the specified one. |
| ArrayStorage.ArrayElems.PopBack | src/cell.rs:893-902 | The in-place operation is the specified one. |
| ArrayStorage.ArrayElems.SpliceAt | src/cell.rs:867-872 | The in-place operation is the specified one. |
| IsoDates.DateRoundTrip | src/temporal_iso.rs:215-244 | Every real date, in any 32-bit year, comes back from its day number. |
| IsoDates.DayRoundTrip | src/temporal_iso.rs:215-244 | Every day number of a span wider than the representable range is that of the real date it converts to. |
| IsoDates.DaysCountCalendar | src/temporal_iso.rs:215-225 | What day numbers mean: 1 January 1970 is 0, and the calendar's next day has the next number, leap years and year ends included. |
| IsoDates.DaysKeepOrder | src/temporal_iso.rs:516-518 | Day numbers order dates as the calendar does, both ways. |
| DateDifference.Most | src/temporal_iso.rs:464-475 | Moving from an estimate terminates at the last count that does not surpass, the next one surpassing. |
| DateDifference.Difference | src/temporal_iso.rs:447-497 | The difference of two in-range dates is greedy (no further whole year, then month, fits), of one sign, within its bounds, and adding it gives exactly the target. |
| DateDifference.AddReaches | src/temporal_iso.rs:426-442 | Adding whole months, constraining the day, and adding the leftover days reaches the target. |
| DateDifference.LeftoverDays | src/temporal_iso.rs:493-497 | When whole months stop short and one more would surpass, the days left are at most 30 and of the same sign. |
| DateDifference.MonthsUnderYear | src/temporal_iso.rs:478-492 | Under a largest unit of Year the months stay within 11. |
| Layouts.GetIsLiveKid | src/shape.rs:200-216 | Whatever form the list has, a lookup of a remembered child finds exactly the one still in use. |
| Layouts.InsertKeepsLiveKids | src/shape.rs:235-273 | Remembering a new child, with replacement, retention or a change of form, forgets no child still in use. |
| Layouts.FindIsIndex | src/shape.rs:689-699 | The parent walk answers a key with its slot in layout order, and none exactly when it is absent. |
| Layouts.EvolvesKeeps | src/shape.rs:545-571 | What a layout says of names and slots outlives every change to the tree. |
| Layouts.AgreesKeeps | src/shape.rs:133-140 | What a layout in use says of names and slots outlives the coming and going of other layouts. |
| Layouts.AddLaw | src/shape.rs:545-571 | Adding a key leads, by a new or a remembered child, to the layout with that key last and a record covering its parent's; no other layout changes. |
| Layouts.NotedLaw | src/shape.rs:433-464 | Recording keeps the tree well-formed and every record at least its parent's. |
| Layouts.CoverDescends | src/shape.rs:452-464 | Where a record covers a mask so do all those grown from there: why the downgrade may stop. |
| Layouts.DropLaw | src/shape.rs:133-140 | A layout that nothing grew from or holds can go without disturbing the rest. |
| LayoutIndex.Find | src/shape.rs:97-114 | Probing terminates and answers as a search of the key list would. |
| LayoutIndex.Build | src/shape.rs:68-94 | The built table holds each key at a probe of its hash with no empty cell before it, and has an empty cell. |
| LayoutIndex.PlaceKeeps | src/shape.rs:84-94 | Filling the cell a probe ended at keeps all earlier keys findable. |
| LayoutTable.ShapeTree.Add | src/shape.rs:545-571 | The imperative add is the specified one, the indices staying right. |
| LayoutTable.ShapeTree.Transition | src/shape.rs:533-539 | The present layout for a known key, else the child. |
| LayoutTable.ShapeTree.Lookup | src/shape.rs:664-686 | Walk, index, or index built on the third probe: always the walk's answer. |
| LayoutTable.ShapeTree.Names | src/shape.rs:709-726 | The property names in slot order, from the index or by walking up. |
| LayoutTable.ShapeTree.NoteNonNumbers | src/shape.rs:442-464 | The layout and every layout in use grown from it learn the mask; no other record changes. |
| LayoutTable.ShapeTree.Downgrade | src/shape.rs:452-464 | The worklist, stopping at covered layouts, terminates having marked exactly those. |
| LayoutTable.ShapeTree.Release | src/shape.rs:133-140 | The last holder letting go drops that layout and its index only. |
| LayoutRuns.StepKeepsRecords | src/shape.rs:404-464 | Every step by any object or holder of layouts keeps every object's non-Number slots on record. |
| LayoutRuns.UntouchedByRun | src/shape.rs:133-140 | An object has the same properties after any run that does not touch it, whatever the other holders of its layouts make, mark or let go. |
| LayoutRuns.NumberOnlyMeansNumbers | src/shape.rs:404-419 | In every run a slot a layout still has as Number-only holds a Number in every object of that layout. |
| ObjectStorage.PutIsMapUpdate | src/object.rs:1723-1761 | A set reads back as a map update does and moves no known key. |
| ObjectStorage.WithoutIsMapRemoval | src/object.rs:2358-2394 | A removal reads back as a map removal does. |
| ObjectStorage.WithoutKeepsOrder | src/object.rs:2333-2394 | What a removal leaves keeps its order. |
| ObjectStorage.SlotStore.Get | src/object.rs:1173-1183 | Inline, near and far slots read as one sequence. |
| ObjectStorage.SlotStore.Write | src/object.rs:1187-1199 | Writing a slot updates that place of the sequence only. |
| ObjectStorage.SlotStore.Push | src/object.rs:1209-1225 | A new slot goes at the end of the sequence. |
| ObjectStorage.DictGet | src/object.rs:1575-1581 | A dictionary reads as its insertion-ordered list does. |
| ObjectStorage.DictInsert | src/object.rs:1258-1277 | A new key goes last and keeps the bound on tombstones. |
| ObjectStorage.DictWrite | src/object.rs:1742-1752 | A known key keeps its place. |
| ObjectStorage.DictRemove | src/object.rs:2382-2394 | A tombstone takes one key out and leaves the rest in order. |
| ObjectStorage.CompactedLaw | src/object.rs:1808-1829 | Dropping the tombstones and renumbering changes neither properties nor order and restores the bound. |
| Objects.PropertyCache.Lookup | src/ic.rs:165-178 | A cache of a key answers as the layout does, and stays right. |
| Objects.Object.Undisturbed | src/shape.rs:433-464 | Whatever other holders do to the shared layouts, letting them go included, leaves this object valid with the same properties. |
| Objects.Object.NumberOnlyHolds | src/object.rs:1209-1219 | A slot the layout has as Number-only holds a Number. |
| Objects.Object.Get | src/object.rs:1575-1581 | The value the property list has for the key, in any storage mode. |
| Objects.Object.CachedGet | src/object.rs:1661-1670 | The uncached answer, from any state of the key's cache. |
| Objects.Object.SetSlot | src/object.rs:1640-1649 | Writes the property whose slot it is, or nothing. |
| Objects.Object.WriteExisting | src/object.rs:1742-1761 | Overwrites a known key in place; false and no change for an absent one. |
| Objects.Object.AddNew | src/object.rs:1258-1277 | Adds the key last, in slots or dictionary, converting at the slot limit. |
| Objects.Object.Set | src/object.rs:1723-1738 | The list with the key put, unless frozen, read-only or not extensible. |
| Objects.Object.ForceSet | src/object.rs:1769-1774 | The list with the key put, whatever the flags. |
| Objects.Object.ConvertToDict | src/object.rs:1831-1862 | Conversion keeps properties and order, with no tombstones. |
| Objects.Object.MaybeConvertToDict | src/object.rs:1783-1793 | The storage may change, the properties do not. |
| Objects.Object.CachedSet | src/object.rs:1682-1702 | Writes exactly when an uncached in-place write would, with the same result, and keeps the cache right. |
| Objects.Object.InitDataCached | src/object.rs:2195-2225 | Does the define an uncached one does whether or not the transition cache hits; refuses, changing nothing, exactly when the define is not plain. |
| Objects.Object.Delete | src/object.rs:2358-2394 | Removes the key and its mark, says whether it was there, and leaves at most 2 * live + 16 order entries. |
| Objects.Object.DeleteData | src/object.rs:2317-2329 | Removes the key. |
| Objects.Object.RebuildWithout | src/object.rs:2333-2353 | Regrowing the layout without a key removes that property only, the new layout learning the values. |
| Objects.Object.CompactOrder | src/object.rs:1808-1829 | The imperative compaction keeps the properties and restores the bound. |
| Objects.Object.Keys | src/object.rs:1866-1877 | The names of the properties in insertion order, in any storage mode. |
| Objects.Object.OrderedKeys | src/object.rs:1951-1961 | The names of the properties in the standard's order, and the only such list. |
| ObjectRuns.Realm.Act | src/object.rs:1575-2394 | One operation of one object, directly or through a site's cache, does and answers what it would on the object's list of properties and marks; no other object notices, and every cache stays right. |
| ObjectRuns.Realm.Share | src/shape.rs:404-464 | Other holders making, marking and letting go of layouts is noticed by no object and no cache. |
| ObjectRuns.Realm.Run | src/object.rs:1575-2394 | Hence any run, of any number of objects and sites, of cached and uncached reads, writes, defines, deletes and changes of marks, with anything done to the layouts in between, is that run on the lists, answers included. |
| ObjectRuns.Realm.RealmIsWorld | src/shape.rs:404-419 | In every state of such a run a slot a layout has as Number-only holds a Number in each object of that layout, and the realm is a sound world of `LayoutRuns`. |
| OwnKeys.ArrayIndexIsDecimal | src/object.rs:38-42 | The array-index keys are exactly the decimal forms of the numbers below 2^32 - 1, one each. |
| OwnKeys.OthersInOrder | src/object.rs:1951-1961 | The keys that are no array index keep the order they were inserted in. |
| OwnKeys.OrderedKeysAreStandard | src/object.rs:1951-1961 | The listed order has the indices ascending and then the other keys as inserted, and it is the only such list. |
| ScopeSlots.BindLaw | src/env.rs:187-214 | Binding changes the one binding, keeps its flags, reuses freed slots, and moves no other name. |
| ScopeSlots.DeleteLaw | src/env.rs:339-362 | Deleting takes the name away, clears its slot and retires every cache of the frame. |
| ScopeSlots.ReplaceFrame | src/env.rs:81-92 | A change to a frame that keeps names at their slots, or retires its generation, leaves every cache of every site right. |
| ScopeSlots.Scopes.NewFrame | src/env.rs:234-266 | A new frame binds nothing and disturbs nothing. |
| ScopeSlots.Scopes.Declare | src/env.rs:416-446 | Declares or redeclares in the one frame, adding the kind's flags. |
| ScopeSlots.Scopes.DeleteLocal | src/env.rs:339-362 | Removes the name from the one frame and says whether it was bound. |
| ScopeSlots.Scopes.Get | src/env.rs:540-546 | The innermost binding's value, or none. |
| ScopeSlots.Scopes.Set | src/env.rs:550-565 | Writes the innermost binding and no other. |
| ScopeSlots.Scopes.CachedSlot | src/env.rs:217-228 | The slot by-name lookup finds in that frame, whichever frame filled the cache and whatever was deleted or reused since. |
| ScopeSlots.Scopes.CachedGetLocal | src/env.rs:569-573 | What by-name lookup in the frame gives. |
| ScopeSlots.Scopes.CachedSetPlainLocal | src/env.rs:579-590 | Writes exactly an initialized plain binding of the name; otherwise nothing changes. |
| Wtf8.DecodeEncode | src/wtf8.rs:184-206 | Decoding the encoding of a code point gives it back with its length, whatever follows. |
| Wtf8.FromUnitsLaw | src/wtf8.rs:132-161 | Any UTF-16 units have a canonical stored form with exactly those units. |
| Wtf8.SameUnitsSameBytes | src/wtf8.rs:212-232 | Two canonical strings are the same bytes exactly when they are the same units. |
| Wtf8.Utf16LenCounts | src/wtf8.rs:315-339 | Counting lead bytes and four-byte leads counts the UTF-16 units. |
| Wtf8Words.WordLen | src/wtf8.rs:325-335 | Two population counts of masked and shifted bits give the units of the eight bytes of a machine word. |
| Wtf8Words.Utf16LenByWords | src/wtf8.rs:315-339 | Counting a word at a time, and the rest byte by byte, counts the UTF-16 units. |
| Wtf8Order.CompareUtf16IsByUnits | src/wtf8.rs:298-311 | Comparing by the first bytes that differ, or by the units where those may start a surrogate, orders strings exactly by their UTF-16 units; only a string equals itself. |
| Wtf8.LeadingLowIsFirst | src/wtf8.rs:77-85 | Three bytes tell whether a canonical string starts with a lone low surrogate. |
| Wtf8.TrailingHighIsLast | src/wtf8.rs:63-72 | Three bytes tell whether it ends with a lone high surrogate. |
| Wtf8.AppendLaw | src/wtf8.rs:221-232 | Joining keeps the canonical form and joins the units, a pair meeting at the seam becoming one code point. |
| Wtf8Ranges.Utf16Range | src/wtf8.rs:523-577 | One pass from any known boundary finds the bytes of a range of units, with the half of a code point split at either end. |
| RopeNodes.LastLeafEnds | src/rope.rs:876-884 | The rightmost flat piece ends as the whole string does. |
| RopeNodes.FirstLeafStarts | src/rope.rs:888-896 | The leftmost flat piece starts as the whole string does. |
| RopeNodes.ConcatContent | src/rope.rs:98-105 | A concatenation's units are its sides', one after the other. |
| RopeFill.Descend | src/rope.rs:929-956 | Putting the longer side on the stack and going on with the shorter keeps every piece in place and each at most half the one below. |
| RopeFill.FewWait | src/rope.rs:922-956 | What waits is within the logarithm of the length. |
| Ropes.Arena.Utf16Length | src/rope.rs:383-446 | The length of the flat string in UTF-16 units, memos used and left right. |
| Ropes.Arena.TryConcat | src/rope.rs:478-547 | The units of one side and then the other, canonical; none exactly when both sides hold something and the bytes would be too many. |
| Ropes.Arena.FillBytes | src/rope.rs:929-956 | Writes exactly the flat string's bytes, with at most log2(length) pieces waiting. |
| Ropes.Arena.Materialize | src/rope.rs:913-920 | The flat string's bytes. |
| Ropes.Arena.ShareBytes | src/rope.rs:851-871 | The bytes of the range, shared or copied. |
| Ropes.Arena.SliceUnitsFrom | src/rope.rs:812-847 | The flat slice, indices clamped and split code points halved, with a true boundary to resume from. |
| Ropes.Arena.SliceUnits | src/rope.rs:606-608 | The flat slice of a flat rope; none for a concatenation. |
| RopeWalks.SliceSize | src/rope.rs:655-683 | No range of units takes more bytes than the whole, surrogate pairs cut at its ends included. |
| RopeWalks.SidesSize | src/rope.rs:655-683 | The parts of a range on both sides of a node take what the range takes: no node's seam cuts a pair. |
| Ropes.Arena.SliceUnitsTree | src/rope.rs:622-683 | The slice of the flat string; none exactly for a flat rope and, the range not being empty, when the walk enters more than 64 nodes. |
| Ropes.Arena.JoinSpans | src/rope.rs:655-683 | Joining whole subtrees and sliced ends left to right gives the range; none exactly when that enters too many nodes, for the pieces never come to too long a string. |
| Ropes.Arena.ChildUnits | src/rope.rs:794-805 | The unit lengths of both sides from the whole's and at most one count. |
| RopeWalks.SliceInHeight | src/rope.rs:622-683 | A slice's walk enters at most two nodes a level. |
| Ropes.Arena.ShortWalksIff | src/rope.rs:622-721 | Every unit of a rope is reached within 32 nodes if and only if the tree is at most 32 high, and then every slice is answered too. |
| Ropes.Arena.UnitAtTree | src/rope.rs:692-721 | The flat string's unit at the index, or that there is none; no answer exactly for a flat rope and, within the string, when the walk passes more than 32 nodes or ends at a leaf neither ASCII nor short. |
| FreeLists.Memory.Push | src/pool_alloc.rs:92-103 | The list holds the block in front of what it held. |
| FreeLists.Memory.Pop | src/pool_alloc.rs:107-117 | The first block, or null exactly when the list is empty. |
| FreeLists.Memory.Append | src/pool_alloc.rs:121-133 | The other list's blocks in front, head, tail and length consistent. |
| FreeLists.ChainAppend | src/pool_alloc.rs:121-133 | Linking one list's end to another's start makes one list of both. |
| PoolLinks.StashTied | src/pool_alloc.rs:121-133 | Splicing a thread's list into the stash's leaves every list of every thread linked, ended and counted right. |
| PoolLinks.StepLinks | src/pool_alloc.rs:231-345 | Every step of any thread, done on the list records and the words of shared memory and decided by them, leaves every list the blocks it should hold. |
| PoolLinks.ListsStayLinked | src/pool_alloc.rs:92-133 | Hence every interleaving does, with writes by the program and into spare regions in between. |
| PoolSpares.StepSound | src/pool_alloc.rs:276-345 | Every step of any thread also leaves the spare regions linked through the two-word headers at their starts; an arena taken over is the first of them, up to the end its header gives. |
| PoolSpares.SparesStayLinked | src/pool_alloc.rs:276-345 | Hence every interleaving does, with the program's writes in between. |
| PoolRuns.SmallClassFits | src/pool_alloc.rs:386-395 | Requests of 1 to 1024 bytes aligned to at most 16 are served, each from the smallest class that holds it; no others. |
| PoolRuns.StepKeeps | src/pool_alloc.rs:231-345 | Every step of any thread keeps every byte in exactly one place and every piece aligned. |
| PoolRuns.RunKeeps | src/pool_alloc.rs:400-479 | Hence every interleaving does. |
| PoolRuns.BlocksNeverOverlap | src/pool_alloc.rs:486-490 | In every interleaving no two blocks the program holds share a byte, no byte of one is on a list, in an arena or spare, and no byte the system gave is lost or doubled. |
| PoolRuns.LiveWritesKeepLinks | src/pool_alloc.rs:92-103 | Whatever the program writes into its blocks, the links of the free lists stay. |
| PoolRuns.OneSpareSuffices | src/pool_alloc.rs:260-271 | A spare region taken over always has room for the block wanted, so the refill loop replaces its arena at most once. |
| PoolRuns.OneChunkSuffices | src/pool_alloc.rs:276-302 | So does a fresh chunk. |
| JsonText.ParseQuoted | src/json.rs:213-237 | A printed string reads back as itself, lone surrogates kept and none paired that were apart. |
| JsonText.ParseNumeral | src/json.rs:337-381 | A number's text reads back as that number and no further. |
| JsonText.NumberIsItsText | src/json.rs:337-381 | A number is accepted only in the exact form of the grammar, as the text it was read from. |
| Json.ParsePrinted | src/json.rs:254-381 | A value's text, whatever follows that is not part of a number, reads back as the value and stops there. |
| Json.ParseUndoesPrint | src/json.rs:243-252 | Parsing undoes printing, compact or indented with white space. |
| Json.PrintIsInjective | src/json.rs:38-104 | Two values have the same text only if they are the same. |
| Json.SetDistinct | src/json.rs:319-323 | Members set one by one under distinct keys are the members in order. |
| JsonParser.Parser.ParseAll | src/json.rs:243-252 | The one-pass parser with its cursor accepts and yields exactly what the specified parser does. |
| JsonParser.Parser.Value | src/json.rs:254-381 | Each value is read to exactly where the specified parser stops. |
| JsonParser.Parser.ParseString | src/json.rs:398-453 | The string loop, escapes and surrogate pairs included, is the specified one. |
| JsonHeap.StringifyPrintsShown | src/json.rs:38-104 | The printer over heap values, with its stack of containers and joined parts, prints exactly the tree shown: functions and `undefined` null in arrays and left out of objects. |
| JsonHeap.ParseUndoesStringify | src/json.rs:38-203 | Whatever is printed parses back, under the same depth limit, as exactly that tree. |
| JsonHeap.GivesUpIffTooDeep | src/json.rs:62-72 | Printing gives up exactly when some path of containers from the value is longer than the limit: always on a cycle, on a tree only if too deep. |

## Left out

- HeapRuns.HandlesAreUnique: runs with a compaction between the two allocations, for which it is false (`Compaction.StaleEdgeCanAlias`).
- HeapRuns.DisciplinedRunIsSound: programs that free explicitly may leave dangling edges, as in the source; the invariants still hold for them (`HeapRuns.RunKeepsInv`).
- ArrayStorage.FreshArrayIsCheap: the moves of the vector's own growth are not counted; they are the standard library's.
- ArrayStorage.WrapLosesTrack: of a queue whose head is about to wrap; `ArrayStorage.LongQueueLosesTrack` is a run that reaches one.
- Wtf8Words.WordLen: a machine word is its bits; subtraction of counts is that of numbers.
- JsonText.ParseNumeral: a number stands for its text; conversion between text and floating point is not part of the model, so negative zero and rounding are not.
- Json.ParseUndoesPrint: a key is its text; the engine's escaping of internal storage keys is not modelled.
- PoolRuns.StepKeeps: the lists are sequences there; `PoolLinks` ties them to the linked form step by step, and the cache's methods are steps on values because threads interleave in them.
- Objects.Object.Set: accessors, the hidden and non-configurable marks, layouts that imply attributes, key-order logs, key epochs and prototypes.
- Objects.Object.AddNew: key-order logs, key epochs and layouts that imply attributes.
- Objects.Object.ForceSet: the attribute marks other than read-only, and epochs.
- Objects.Object.InitDataCached: hidden marks and layouts that imply attributes, in the test for a plain define.
- Objects.Object.Delete: non-configurable and accessor properties.
- Objects.Object.DeleteData: the attribute marks other than read-only.
- Objects.Object.ConvertToDict: letting go of the old layout is the separate step `Release`; the index of attributes.
- Objects.Object.RebuildWithout: letting go of the old layout is the separate step `Release`.
- Objects.Object.OrderedKeys: accessors and the key-order log, which the listing also reads.
- ObjectRuns.Realm.Run: the objects are those of the start (one made later is one not named until then), and a cached write that misses goes on as an uncached one.
- LayoutTable.ShapeTree.Lookup: the layout's length fits 32 bits, as the source's counter does.
- Ropes.Arena.FillBytes: only flattening; a rope's destructor and its display form are not modelled.
- ScopeSlots.Scopes.Set: the global binding epoch, `with` objects and module tables.
- Verification (poison) mode, byte weights, the recycled object pool and the addresses given to compiled code.
- Snapshots, the bytecode and its machine, the regular expression engine, the realm and the host interface.
- Time of day, durations, rounding and the parsers of the calendar module: separate calculations with easier claims.
- The native stack guard of the JSON parser and printer; only the depth limit is modelled.
- Exact acceptance of the JSON grammar inside strings, where the parser is more permissive than the standard.
