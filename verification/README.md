# Verified models of libpmemobj-cpp

libpmemobj-cpp is a C++ library of containers and transactions for persistent memory. This
project models its most intricate parts in Dafny 4.11 and proves what they are for.

`dafny verify dfyconfig.toml` checks everything.

## What is modelled

**The concurrent hash map.** `MapState` describes `concurrent_hash_map` as a system of any
number of threads, each with a program counter, over the shared mask, table, `rehashed` flags,
bucket chains, bucket and item locks and size counters. Every shared load and store, every lock
operation and every committed transaction is a step of its own. Growth, the lazy recursive
rehash, the retry after a mask race and the traversals of `defragment` and `rehash` are part of
it. A crash can happen between any two steps: it drops locks, the mask and the volatile size,
may drop flags that were stored but not yet persisted, and is followed by recovery.
`MapInvariant` to `MapReachable` prove one invariant of all runs. `MapReturns`, `MapLinearize`,
`MapHandles` and `MapAtomic` show that every run, crashes included, is a run of an atomic map with
the same results, in which each thread holds exactly the items it was handed and has not released.
`MapVisits` is about the traversals, `MapTheorems` states what follows for a client. `MapGrowth`,
`MapSolo` and `MapLevels` show that the map gets on: an operation that runs alone completes, an
insert grows the table exactly when it should, and every mask can be reached. `HashPath` holds the arithmetic of masks and
parents, `ChainSplit` and `RehashBucket` the pointer splicing of one rehash on the heap,
`Segments` the table of bucket arrays.

**Transactions.** `Transactions` gives a small language of nested flat and basic blocks with
stores, exceptions, handlers, aborts and callbacks a meaning through the stage machine, and says
when the outermost block keeps its stores. `TransactionLaws` says what becomes of the bodies that
programs are made of, for all their parameters. `TransactionRun` is the imperative form of the
machine and of `transaction_base`, proved equal to it.

**The persistent vector.** `UndoVector` is a class over arrays with its undo log: which cells it
snapshots, which it tracks without a snapshot, and which it overwrites. Each construction,
assignment, snapshot or allocation can throw, and an operation fails only then or when a length
is beyond the largest one. Moves and destructors leave arbitrary values behind, so missing
snapshots would show. `VectorOps` says what the operations do to elements, capacity and cells, and
what an abort after a run of them leaves. `NextPow` is the bit trick behind the capacities.

**The persistent string.** `StringUnion` keeps the 32 bytes of the string as bytes: a size word
with a flag, and 24 bytes that are characters or the capacity and pointer fields of a vector. The
log tracks bytes, so that overwriting a field with characters has to have been logged.

**The crit-bit tree.** `CritBit` is the tree of `ctree_map_transient` and `ctree_map_p` as a
value, with its map and its order; `CritBitHeap` is the same on a heap of entries and nodes that
are overwritten in place, allocated and freed.

**The slab.** `Slab` is the slab allocator with its chain of vacant slots and the key-value store
with its volatile index.

Assumed throughout are sequentially consistent memory, an arbitrary hash function, and the
documented contract of libpmemobj: nesting, abort of the outer transactions after an inner abort,
rollback of what was logged, and transactional allocation.

## Where the code and its documentation differ

- `vector::insert` of an empty range is documented to change nothing. It moves the elements from
  the position on onto themselves; `InsertNothing` says when that is harmless.
- `vector::assign` is documented to leave a capacity of max(size, count); it keeps the old capacity
  when the elements fit.
- `calculate_mask` stops at the first segment that is not valid. With all 32 segments enabled there
  is none, and the loop would read block pointers beyond the table; `CalculateMask` says exactly
  when it does not, and `GrowToLimit` grows a table until it does.
- For trivially destructible elements `vector::shrink` takes no snapshot, and `resize` upwards
  tracks nothing. One outer transaction with several operations is then not always undone by an
  abort. `RunHurt` computes from sizes and positions alone which elements are at risk: those over
  which an operation constructs others in the same array before any operation has tracked them.
  Without one, every abort at any point restores the vector. With some, `AbortLeaves` says what an
  abort after the run leaves, which is the old vector if and only if the elements at risk end up
  with their old values (`RestoredIff`). `PopThenPush` is the shortest example.
- `next_pow_2` returns 1 for arguments above 2^63 (`NextPow2Exact`).

## Model

| member | source | states |
|---|---|---|
| HashPath.ParentStripsTopBit | include/libpmemobj++/container/concurrent_hash_map.hpp:1911-1916 | the parent index of the rehash is the index masked below its topmost bit |
| HashPath.NextMask | include/libpmemobj++/container/concurrent_hash_map.hpp:1189-1207 | the loop over mask bits finds the first mask after the old one under which the hash moves, and the parent of that bucket is the bucket under the old mask |
| HashPath.MaskedOnPath | include/libpmemobj++/container/concurrent_hash_map.hpp:1911-1921 | each mask selects a bucket of the path of the hash |
| HashPath.ParentIsNext | include/libpmemobj++/container/concurrent_hash_map.hpp:1911-1916 | no bucket that a hash can be stored in lies strictly between a bucket of its path and the parent of that bucket |
| HashPath.MaskedIsRemainder | include/libpmemobj++/container/concurrent_hash_map.hpp:1195-1208 | masking and shifting split a hash into remainder and quotient |
| HashPath.NextLevelParent | include/libpmemobj++/container/concurrent_hash_map.hpp:1195-1209 | the bucket that check_rehashing_collision looks at is rehashed from the bucket the thread has locked |
| ChainSplit.SplitMembers | include/libpmemobj++/container/concurrent_hash_map.hpp:1926-1958 | the moving and the staying nodes are the nodes with and without the new bucket on their path |
| ChainSplit.SplitConserves | include/libpmemobj++/container/concurrent_hash_map.hpp:1926-1958 | no node is lost or duplicated by a split |
| ChainSplit.SplitDistinct | include/libpmemobj++/container/concurrent_hash_map.hpp:1926-1958 | both parts of a chain without repeated addresses or keys have none |
| RehashBucket.FullMaskSelects | include/libpmemobj++/container/concurrent_hash_map.hpp:1919-1921 | comparing under the full mask selects exactly the hashes with the new bucket on their path |
| RehashBucket.SplitChain | include/libpmemobj++/container/concurrent_hash_map.hpp:1923-1960 | the splicing loop on the heap is a stable partition into two disjoint chains that end in null |
| RehashBucket.Rehash | include/libpmemobj++/container/concurrent_hash_map.hpp:1883-1966 | a bucket that a crash left filled only gets its flag, otherwise the parent's chain is split, and all nodes are kept |
| RehashBucket.SearchBucket | include/libpmemobj++/container/concurrent_hash_map.hpp:1705-1722 | the search returns the first node with the key, or null if there is none |
| RehashBucket.InsertNode | include/libpmemobj++/container/concurrent_hash_map.hpp:1219-1230 | the new node becomes the head of the chain |
| RehashBucket.EraseNode | include/libpmemobj++/container/concurrent_hash_map.hpp:3213-3281 | the node with the key is unlinked and the other nodes keep their order |
| MapReachable.InitialInv | include/libpmemobj++/container/concurrent_hash_map.hpp:2095-2103 | the invariant holds of a new map with any number of threads |
| MapReachable.ActionInv | include/libpmemobj++/container/concurrent_hash_map.hpp:1758-3401 | each step of a thread, each client action, clear, and a crash with recovery keep the invariant |
| MapReachable.ReachableInv | include/libpmemobj++/container/concurrent_hash_map.hpp:1758-3401 | the invariant holds after every run |
| MapReachable.GiveUpNotInserted | include/libpmemobj++/container/concurrent_hash_map.hpp:3172-3186 | an insert that has linked its node never has to give up on the item lock, so it is not retried |
| MapTable.KeyOnce | include/libpmemobj++/container/concurrent_hash_map.hpp:3130-3197 | two nodes with one key are the same node in the same bucket |
| MapTable.KeyAtHome | include/libpmemobj++/container/concurrent_hash_map.hpp:1170-1213 | if nothing below the locked bucket is in use on the path of a key, the key is in that bucket or nowhere |
| MapTable.UsedBelow | include/libpmemobj++/container/concurrent_hash_map.hpp:1883-1966 | a bucket in use has all smaller buckets of its path flagged and persisted |
| MapLinearize.ActionSim | include/libpmemobj++/container/concurrent_hash_map.hpp:3065-3285 | each step is matched by at most one operation taking effect on the contents of the atomic map, with the result the step shows |
| MapAtomic.Linearizable | include/libpmemobj++/container/concurrent_hash_map.hpp:3065-3285 | every run of a new map, with crashes, clear, and reads, assignments and releases through accessors, is a run of an atomic map with the same calls, results and values; find and insert put the item of their key into the hands of the thread in the mode asked for, nobody else holds it in a way that excludes this, an erased key is in nobody's hands, and only what is in hand is read, assigned and released |
| MapAtomic.LinearizableFrom | include/libpmemobj++/container/concurrent_hash_map.hpp:3065-3285 | the same for runs from any state that shows a state of the atomic map and in which finished operations have their items |
| MapAtomic.AtomicSim | include/libpmemobj++/container/concurrent_hash_map.hpp:3065-3285 | each step is a step of the atomic map, contents and hands together |
| MapHandles.HandsStay | include/libpmemobj++/container/concurrent_hash_map.hpp:3042-3059 | the atomic map never lets a thread hold a key that is not there, or one that another thread holds exclusively |
| MapReturns.DeliveredStep | include/libpmemobj++/container/concurrent_hash_map.hpp:3107-3191 | every step keeps it that an operation on its way to return has the node of its key linked and locked, exclusively if and only if a write accessor was asked for |
| MapTheorems.Placement | include/libpmemobj++/container/concurrent_hash_map.hpp:1758-1779 | in every run a node lies in a bucket on the path of its hash, no deeper bucket of the path is flagged or filled, and its key occurs once in the table |
| MapTheorems.MissIsGenuine | include/libpmemobj++/container/concurrent_hash_map.hpp:1170-1213 | when find or erase reports a miss, or insert goes on, after any number of growths, the key is in no bucket at that instant |
| MapTheorems.HoldsOnlyAbove | include/libpmemobj++/container/concurrent_hash_map.hpp:1758-1779 | a thread that waits for a bucket holds only bucket locks with a higher index |
| MapTheorems.NoWaitCycle | include/libpmemobj++/container/concurrent_hash_map.hpp:1758-1779 | no cycle of threads waiting for bucket locks of each other is reachable |
| MapTheorems.DeadlockFree | include/libpmemobj++/container/concurrent_hash_map.hpp:1758-1779 | while an operation is in progress, some operation in progress can take a step |
| MapTheorems.BoundedRehash | include/libpmemobj++/container/concurrent_hash_map.hpp:1911-1916 | the recursion of rehash_bucket is no deeper than the bits of the bucket index |
| MapTheorems.FindsShare | include/libpmemobj++/container/concurrent_hash_map.hpp:1758-1779 | a find that comes to a rehashed bucket which nobody has locked exclusively locks it shared, at once |
| MapTheorems.VisitedRange | include/libpmemobj++/container/concurrent_hash_map.hpp:2868-2890 | a visit that has acquired a bucket has rehashed it and all above it in its range, with persisted flags, and all of the range when it ends, whether kept or dropped |
| MapTheorems.RehashDone | include/libpmemobj++/container/concurrent_hash_map.hpp:3296-3324 | when rehash() returns, every bucket of the table it was called on is rehashed |
| MapTheorems.VisitLocks | include/libpmemobj++/container/concurrent_hash_map.hpp:2829-2890 | a bucket that a visit has acquired is locked exclusively, and by nobody else, until the visit drops it or ends |
| MapTheorems.DropUnlocks | include/libpmemobj++/container/concurrent_hash_map.hpp:2944-2950 | a dropped bucket is unlocked, and only that one |
| MapGrowth.InsertGrows | include/libpmemobj++/container/concurrent_hash_map.hpp:1272-1300 | an insert of a new key that runs alone on a map at rest succeeds and adds one node, and the mask grows, from 1 to 8 bits or by one bit, if and only if the new size modulo 2^64 has reached it |
| MapSolo.SoloCompletes | include/libpmemobj++/container/concurrent_hash_map.hpp:3065-3285 | every operation, with any rehashes on its way, completes if it runs alone on a map at rest |
| MapLevels.LevelsReached | include/libpmemobj++/container/concurrent_hash_map.hpp:1105-1147 | for any hash function and number of threads a mask of k bits can be reached if and only if k is 1, or 8 to 65 |
| MapLevels.GrowerInserted | include/libpmemobj++/container/concurrent_hash_map.hpp:3130-3197 | in every run only an insert that has inserted its node grows the table, and the size it has counted reaches the mask it works with |
| MapTheorems.ReturnedItem | include/libpmemobj++/container/concurrent_hash_map.hpp:3107-3191 | from the unlocking of the bucket until the return, a find that hit or an insert that wanted an item has it: exclusively if and only if a write accessor was asked for, then in no other thread's accessors, and the one linked node with the key |
| MapTheorems.AccessorsNeverDangle | include/libpmemobj++/container/concurrent_hash_map.hpp:3042-3059 | in every run the node behind an accessor is linked |
| MapTheorems.FreedNodeUnheld | include/libpmemobj++/container/concurrent_hash_map.hpp:3254-3281 | the node that an erase is about to free is held by no accessor, though its item lock was dropped |
| MapTheorems.AccessorStable | include/libpmemobj++/container/concurrent_hash_map.hpp:3042-3059 | no step of another thread changes the value behind an accessor |
| MapTheorems.ReleasedItem | include/libpmemobj++/container/concurrent_hash_map.hpp:2017-2026 | a release takes the item, and nothing else, out of the accessors of the thread; if it was exclusive, every thread that wants the item can lock it |
| MapTheorems.Recovery | include/libpmemobj++/container/concurrent_hash_map.hpp:2169-2204 | after a crash at any step the mask is the old one or the next, the size counts the linked nodes, no lock is held and the invariant holds again; that chains and values are those committed is how the crash is defined |
| MapTheorems.ClearIsNew | include/libpmemobj++/container/concurrent_hash_map.hpp:3326-3401 | after clear the table, the size and the locks are those of a new map |
| MapTheorems.InterruptedRehash | include/libpmemobj++/container/concurrent_hash_map.hpp:1900-1909 | an unflagged bucket with nodes has all the nodes of its path, one without nodes can be filled again |
| MapTheorems.SizeCounts | include/libpmemobj++/container/concurrent_hash_map.hpp:961-983 | modulo 2^64, on_init_size and the per-thread differences count the linked nodes in every state, my_size does at quiescence |
| Segments.CellOfIndex | include/libpmemobj++/container/concurrent_hash_map.hpp:412-429 | every bucket index of 32 segments gets an offset inside a block of the table, and the index can be read back |
| Segments.IndexOfCell | include/libpmemobj++/container/concurrent_hash_map.hpp:517-528 | every offset of every block belongs to an index, so the blocks tile the segments |
| Segments.CellsDiffer | include/libpmemobj++/container/concurrent_hash_map.hpp:1153-1165 | different indices get different cells |
| Segments.SegmentTable.EnableFirst | include/libpmemobj++/container/concurrent_hash_map.hpp:698-724 | segments 1 to 7 share one allocation, laid out one after the other |
| Segments.SegmentTable.EnableBig | include/libpmemobj++/container/concurrent_hash_map.hpp:726-742 | a later segment gets an array of its own for each block |
| Segments.SegmentTable.EnableSegment | include/libpmemobj++/container/concurrent_hash_map.hpp:1105-1147 | growing enables exactly the segments of the mask it returns |
| Segments.SegmentTable.IsValid | include/libpmemobj++/container/concurrent_hash_map.hpp:671-682 | a segment is valid exactly if it is enabled |
| Segments.SegmentTable.CalculateMask | include/libpmemobj++/container/concurrent_hash_map.hpp:1051-1074 | the recovered mask is that of the enabled segments, and the loop stays inside the table if and only if not all are enabled |
| Segments.GrowToLimit | include/libpmemobj++/container/concurrent_hash_map.hpp:1051-1147 | a new table can be grown to all 32 segments, and then calculate_mask leaves the table |
| Segments.SegmentTable.Disable | include/libpmemobj++/container/concurrent_hash_map.hpp:630-660 | disabling frees the arrays of the segment with their allocated lengths; of segments 1 to 7 only the first does |
| Segments.SegmentTable.Clear | include/libpmemobj++/container/concurrent_hash_map.hpp:3346-3377 | after any growth, clear frees each array once and leaves the embedded segment |
| Segments.NoOtherArrays | include/libpmemobj++/container/concurrent_hash_map.hpp:698-742 | every array that is allocated is the shared one or that of a block in use |
| Segments.SharedBucket | include/libpmemobj++/container/concurrent_hash_map.hpp:706-720 | buckets of segments 1 to 7 lie one after the other inside the shared allocation |
| Segments.AddressesDiffer | include/libpmemobj++/container/concurrent_hash_map.hpp:517-528 | in an enabled table different indices have different addresses |
| Transactions.OutermostBlock | include/libpmemobj++/transaction.hpp:385-403 | the outermost block keeps all its stores and returns normally if and only if the body did, no abort ran, no nested basic block was left by an exception and no call failed; else it keeps none; each callback fires once for its registration |
| Transactions.ExecMoves | include/libpmemobj++/transaction.hpp:67-122 | every statement of an open block keeps the pool that a rollback restores, and after something bad the block stays aborted |
| Transactions.NestedMoves | include/libpmemobj++/transaction.hpp:107-122 | a nested block passes on what its body did, or an abort |
| TransactionLaws.StoresKept | include/libpmemobj++/transaction.hpp:385-403 | a block of stores keeps the last value stored to each cell if all cells are in the pool, and otherwise no store |
| TransactionLaws.CallbackFires | include/libpmemobj++/transaction.hpp:486-495 | a callback is called on commit or at the end if it was registered for that, and else not |
| TransactionLaws.AbortCallbackFires | include/libpmemobj++/transaction.hpp:540-566 | in an aborted block it is called if it was registered for the abort or the end |
| TransactionLaws.CallbacksInOrder | include/libpmemobj++/transaction.hpp:540-566 | callbacks of one stage are called in the order of registration |
| TransactionLaws.AbortStops | include/libpmemobj++/transaction.hpp:308-317 | abort throws, nothing after it is executed, and a store before it is undone |
| TransactionLaws.ThrowStops | include/libpmemobj++/transaction.hpp:107-122 | an exception that leaves the block undoes it, and nothing after it is executed |
| TransactionLaws.CaughtInside | include/libpmemobj++/transaction.hpp:385-403 | an exception caught inside the block undoes nothing |
| TransactionLaws.NotCaught | include/libpmemobj++/transaction.hpp:385-403 | a handler for other exceptions is not executed |
| TransactionLaws.BranchTaken | include/libpmemobj++/transaction.hpp:385-403 | of two stores the one that a condition selects is done |
| TransactionLaws.FlatSurvives | include/libpmemobj++/transaction.hpp:713-717 | an exception that leaves a nested flat block and is caught in the outer one undoes nothing |
| TransactionLaws.BasicAborts | include/libpmemobj++/transaction.hpp:107-122 | out of a nested basic block it aborts the outer one, caught or not |
| TransactionLaws.NestedBelongs | include/libpmemobj++/transaction.hpp:107-122 | the store of a nested block that is left normally is kept or undone with the outer one |
| TransactionLaws.FailureCaught | include/libpmemobj++/transaction.hpp:713-717 | a failed snapshot that is caught aborts a basic block, and not a flat one |
| TransactionRun.Machine.CCallback | include/libpmemobj++/transaction.hpp:540-566 | the callbacks of a stage are called in order of registration, and Finally empties the lists |
| TransactionRun.Machine.StartManual | include/libpmemobj++/transaction.hpp:66-101 | the constructor of manual begins a transaction in the mode of the block |
| TransactionRun.Machine.DestroyManual | include/libpmemobj++/transaction.hpp:107-122 | the destructor commits a nested flat block, aborts any other that is still in progress, and ends it |
| TransactionRun.Machine.LeaveRun | include/libpmemobj++/transaction.hpp:391-402 | run commits after its body, or throws if the body left an aborted transaction |
| TransactionRun.Machine.RunBlock | include/libpmemobj++/transaction.hpp:385-403 | run as a method does what the machine says |
| TransactionRun.Machine.RunOutermost | include/libpmemobj++/transaction.hpp:385-403 | run on an idle machine keeps all stores and returns normally if and only if the body did, no abort ran, no nested basic block was left by an exception and no call failed; else it keeps none; it calls each callback once for its registration and leaves the machine idle |
| TransactionRun.Machine.AbortRun | include/libpmemobj++/transaction.hpp:308-317 | abort in stage Work throws manual_tx_abort in stage OnAbort, with the pool restored and the callbacks called if the block is the outermost; elsewhere it throws and changes nothing |
| TransactionRun.Machine.TakeSnapshot | include/libpmemobj++/transaction.hpp:433-453 | snapshot succeeds if and only if the stage is Work and the cell is in the pool, and then logs the old value of a cell that was not logged, and nothing else changes |
| TransactionRun.Machine.RegisterCallback | include/libpmemobj++/transaction.hpp:486-495 | register_callback in stage Work adds the callback with its stage at the end and changes nothing else; elsewhere it throws and changes nothing |
| TransactionRun.Machine.StoreCell | include/libpmemobj++/transaction.hpp:433-453 | a snapshot and a store change that cell, log its first old value, and fail if and only if the cell is not in the pool or the stage is not Work |
| TransactionRun.Machine.Perform | include/libpmemobj++/transaction.hpp:385-403 | bodies of blocks, nested to any depth, do what the machine says |
| NextPow.NextPow2Exact | include/libpmemobj++/detail/common.hpp:212-224 | for every 64-bit argument: next_pow_2 is not below it if and only if it is at most 2^63, and then it is rounded up as by repeated doubling; beyond, the result is 1 |
| NextPow.CeilingSmallest | include/libpmemobj++/container/vector.hpp:2419-2424 | the capacity that the vector chooses is the least power of two that is not below the size |
| UndoVector.Vector.AddDataToTx | include/libpmemobj++/container/vector.hpp:2467-2492 | exactly the cells of the range become tracked, elements with a snapshot and cells after the end without; it fails only by a fault, and keeps the old elements restorable when cells after the end are safe or not in the range |
| UndoVector.Vector.Shrink | include/libpmemobj++/container/vector.hpp:2442-2456 | shrink leaves a prefix and keeps the old elements restorable; with trivial destructors it tracks and changes nothing |
| UndoVector.Vector.Realloc | include/libpmemobj++/container/vector.hpp:2369-2411 | without a fault and up to max_size realloc moves the elements that fit to a new array of the given capacity and frees the old one |
| UndoVector.Vector.MoveElementsBackward | include/libpmemobj++/container/vector.hpp:2225-2234 | without a fault the elements after the gap are moved up, and no other cell changes |
| UndoVector.Vector.ConstructOrAssign | include/libpmemobj++/container/vector.hpp:2244-2264 | without a fault the gap holds the new elements, and no other cell changes |
| UndoVector.Vector.InternalInsert | include/libpmemobj++/container/vector.hpp:2287-2349 | without a fault and up to max_size insert gives prefix, items and rest in both branches; the capacity is kept if they fit, else the least power of two for the new size; which cells it tracks and what it leaves in the other cells and in the old array is exact |
| UndoVector.Vector.EmplaceBack | include/libpmemobj++/container/vector.hpp:1749-1772 | without a fault and up to max_size appending adds one element, with the same rule for the capacity |
| UndoVector.Vector.Erase | include/libpmemobj++/container/vector.hpp:1821-1850 | without a fault erase closes the gap; it keeps the old elements restorable; only the tail of trivially destructible elements is not tracked |
| UndoVector.Vector.Assign | include/libpmemobj++/container/vector.hpp:689-732 | without a fault and up to max_size assign replaces the contents in place, or in a new array if they do not fit, and tracks all cells that had or get an element in place |
| UndoVector.Vector.Resize | include/libpmemobj++/container/vector.hpp:1934-1948 | without a fault and up to max_size each of the n elements is the old one or a blank; in place, padding tracks nothing |
| UndoVector.Vector.Insert | include/libpmemobj++/container/vector.hpp:2287-2349 | insert by itself: the elements before the position, the items, the rest |
| UndoVector.Vector.PopBack | include/libpmemobj++/container/vector.hpp:1907-1914 | pop_back removes the last element, of an empty vector none, and keeps the array |
| UndoVector.Vector.Clear | include/libpmemobj++/container/vector.hpp:1439-1447 | clear removes all elements and keeps the array |
| UndoVector.Vector.Reserve | include/libpmemobj++/container/vector.hpp:1384-1399 | reserve keeps the elements, and the capacity becomes the given one if that is larger |
| UndoVector.Vector.ShrinkToFit | include/libpmemobj++/container/vector.hpp:1419-1431 | shrink_to_fit keeps the elements and makes the capacity the size |
| UndoVector.Vector.FreeData | include/libpmemobj++/container/vector.hpp:1459-1468 | free_data leaves no elements and no array |
| UndoVector.Vector.Abort | include/libpmemobj++/container/vector.hpp:2467-2492 | the rollback writes every snapshot back, which gives the old vector if each old element was snapshotted or left alone |
| UndoVector.Vector.Perform | include/libpmemobj++/container/vector.hpp:689-2492 | every operation refines its counterpart on sequences, with the capacity it documents or keeps, and fails only by a fault or beyond max_size; the cells it tracks, with which snapshots, and what all cells of its array hold afterwards are exact |
| UndoVector.Vector.Transact | include/libpmemobj++/container/vector.hpp:689-2492 | a transaction with any operations, interrupted anywhere, does all of them or restores size, capacity, array and every element that is not at risk (all of them if destructors are not trivial); without a fault it does them exactly if they are possible; what an abort after them leaves is exact |
| VectorOps.UnhurtRestored | include/libpmemobj++/container/vector.hpp:2442-2492 | an element that was not at risk in a run is restored by an abort after it |
| VectorOps.RestoredIff | include/libpmemobj++/container/vector.hpp:2442-2492 | an abort after a run restores the elements if and only if those at risk end up with their old values |
| VectorOps.NoneHurt | include/libpmemobj++/container/vector.hpp:2449-2450 | with destructors that are not trivial no run puts an element at risk |
| VectorOps.SingleHurtsNone | include/libpmemobj++/container/vector.hpp:2449-2450 | a single operation puts no element at risk |
| UndoVector.Vector.PopThenPush | include/libpmemobj++/container/vector.hpp:2449-2450 | an abort after pop_back and push_back leaves the pushed element in place of the old one if destructors are trivial, and restores the vector otherwise |
| VectorOps.InsertNothing | include/libpmemobj++/container/vector.hpp:2225-2234 | inserting an empty range changes nothing if and only if moving the elements behind it onto themselves does not |
| UndoVector.Vector.InsertThenErase | include/libpmemobj++/container/vector.hpp:1821-2349 | inserting elements and erasing them again gives back the contents, with the grown capacity |
| StringUnion.DecodeEncode | include/libpmemobj++/container/basic_string.hpp:354-369 | a field written to its bytes can be read back |
| StringUnion.PString.AddSso | include/libpmemobj++/container/basic_string.hpp:4262-4282 | tracking bytes keeps the old string restorable |
| StringUnion.PString.DestroyData | include/libpmemobj++/container/basic_string.hpp:3923-3936 | without a fault every byte that mattered is logged afterwards, and no array is left |
| StringUnion.PString.AllocateLarge | include/libpmemobj++/container/basic_string.hpp:4036-4058 | without a fault and up to max_size a vector is constructed over the characters; the old string stays restorable |
| StringUnion.PString.AssignSso | include/libpmemobj++/container/basic_string.hpp:4064-4082 | short characters and their terminator, over bytes that may have been fields |
| StringUnion.PString.AssignLarge | include/libpmemobj++/container/basic_string.hpp:4107-4123 | large characters and their terminator, with the capacity needed |
| StringUnion.PString.ReplaceContent | include/libpmemobj++/container/basic_string.hpp:3984-4001 | assignment across every switch of representation, with just the room needed or the room there was; it fails only by a fault or beyond the largest size |
| StringUnion.PString.SsoToLarge | include/libpmemobj++/container/basic_string.hpp:4337-4361 | a short string becomes large with the same characters and the capacity asked for |
| StringUnion.PString.LargeToSso | include/libpmemobj++/container/basic_string.hpp:4371-4395 | a large string becomes short with the same characters |
| StringUnion.PString.Erase | include/libpmemobj++/container/basic_string.hpp:1621-1660 | erase removes the characters from the index on, at most count, character by character the others stay; representation and capacity stay; without a fault it fails if and only if the index is beyond the end |
| StringUnion.PString.Append | include/libpmemobj++/container/basic_string.hpp:1933-1982 | append adds the characters; a short string that becomes large gets just the room needed, a large one grows by powers of two; without a fault it fails if and only if the result is beyond max_size or the capacity for it beyond the largest one |
| StringUnion.PString.Insert | include/libpmemobj++/container/basic_string.hpp:2417-2478 | insert puts the characters at the index, with the same rule for the room; without a fault it fails if and only if the index or the length is out of range |
| StringUnion.PString.Replace | include/libpmemobj++/container/basic_string.hpp:2636-2695 | replace exchanges at most count characters, character by character the others stay; the result is short if it fits, else the room follows the same rule; without a fault it fails if and only if the index or the length is out of range |
| StringUnion.PString.Resize | include/libpmemobj++/container/basic_string.hpp:3742-3764 | each of the n characters is the old one or the given one; cutting keeps representation and capacity; without a fault it fails if and only if the length is out of range |
| StringUnion.PString.Reserve | include/libpmemobj++/container/basic_string.hpp:3811-3829 | reserve keeps the characters, and the string is short if it was and the room suffices, else the capacity becomes the larger of the two; without a fault it fails if and only if that is beyond max_size |
| StringUnion.PString.ShrinkToFit | include/libpmemobj++/container/basic_string.hpp:3843-3857 | shrink_to_fit keeps the characters, makes the string short if they fit, else the capacity the size |
| StringUnion.PString.FreeData | include/libpmemobj++/container/basic_string.hpp:3887-3904 | free_data leaves an empty short string and no array |
| StringUnion.PString.Clear | include/libpmemobj++/container/basic_string.hpp:3868-3873 | clear leaves no characters, and representation and capacity as they were |
| StringUnion.PString.Swap | include/libpmemobj++/container/basic_string.hpp:4176-4203 | swap exchanges the characters for every combination of representations, and whatever it has done so far can be undone |
| StringUnion.PString.TransactSwap | include/libpmemobj++/container/basic_string.hpp:4176-4203 | swap in an outermost transaction, interrupted anywhere, exchanges the characters of both strings or restores the representations of both; without a fault it exchanges them unless an assignment is refused |
| StringUnion.PString.Abort | include/libpmemobj++/container/basic_string.hpp:4262-4282 | the rollback gives back the representation, the fields and the characters |
| StringUnion.PString.Transact | include/libpmemobj++/container/basic_string.hpp:1579-4395 | one operation in an outermost transaction, interrupted anywhere, does all of its work, with the room it should have, or restores representation and characters; without a fault it does it if and only if index and length are in range |
| CritBit.CritDiffers | examples/map_cli/ctree_map_transient.hpp:307-314 | the crit bit is the most significant bit in which two keys differ |
| CritBit.GetIsLookup | examples/map_cli/ctree_map_transient.hpp:343-365 | the descent for a key ends at its leaf if and only if the key is in the map |
| CritBit.GraftValid | examples/map_cli/ctree_map_transient.hpp:316-341 | insert_leaf keeps diffs decreasing, subtrees agreeing above them and sides chosen by them |
| CritBit.GraftMap | examples/map_cli/ctree_map_transient.hpp:316-341 | insert_leaf adds the key to the map |
| CritBit.InsertRefines | examples/map_cli/ctree_map_transient.hpp:59-80 | insert on a valid tree gives a valid tree of the updated map |
| CritBit.RemoveRefines | examples/map_cli/ctree_map_transient.hpp:108-134 | remove on a valid tree gives a valid tree of the map without the key |
| CritBit.GetRefines | examples/map_cli/ctree_map_transient.hpp:175-181 | get returns the value of the key, or null |
| CritBit.InOrderAscends | examples/map_cli/ctree_map_transient.hpp:367-384 | the traversal visits keys in strictly ascending order |
| CritBit.InOrderIsMap | examples/map_cli/ctree_map_transient.hpp:367-384 | the traversal visits exactly the entries of the map |
| CritBit.TreeSize | examples/map_cli/ctree_map_transient.hpp:279-304 | a descent takes at most 64 hops, and there is one node less than leaves |
| CritBitHeap.SetLeafHolds | examples/map_cli/ctree_map_persistent.hpp:81-85 | overwriting the entry of a leaf replaces the leaf of the tree |
| CritBitHeap.GraftHolds | examples/map_cli/ctree_map_persistent.hpp:341-371 | copying an entry below a new node grafts the tree |
| CritBitHeap.RemoveHolds | examples/map_cli/ctree_map_persistent.hpp:142-156 | overwriting the parent with the sibling removes the leaf |
| CritBitHeap.PrunedObjects | examples/map_cli/ctree_map_persistent.hpp:142-156 | what remove unlinks is one node and its two entries |
| CritBitHeap.CTree.Descend | examples/map_cli/ctree_map_persistent.hpp:373-397 | the loop ends at the leaf on the path of the key, and knows the entry above it |
| CritBitHeap.CTree.Insert | examples/map_cli/ctree_map_persistent.hpp:68-94 | insert does to the heap what it does to the tree, and deletes exactly the value it replaces |
| CritBitHeap.CTree.Remove | examples/map_cli/ctree_map_persistent.hpp:128-161 | remove does to the heap what it does to the tree, and what stays allocated is what the tree consists of |
| CritBitHeap.CTree.Get | examples/map_cli/ctree_map_persistent.hpp:210-216 | get on the heap is get on the tree |
| CritBitHeap.CTree.Clear | examples/map_cli/ctree_map_persistent.hpp:181-200 | clear frees every node, every entry but the root and every value, each once |
| CritBitHeap.ValuesInOrder | examples/map_cli/ctree_map_persistent.hpp:181-200 | the values that clear deletes are those of the leaves, each as often |
| CritBitHeap.CTree.Foreach | examples/map_cli/ctree_map_persistent.hpp:238-245 | foreach visits all leaves from left to right, or nothing if the root holds neither value nor node |
| CritBitHeap.HistoryRefines | examples/map_cli/ctree_map_persistent.hpp:68-200 | after any sequence of insert, remove and clear the tree is a valid crit-bit tree of the map they make, and get agrees with it |
| Slab.ChainUnique | examples/slab/slab.cpp:117-134 | a head determines its chain of vacant slots |
| Slab.SlabVector.Insert | examples/slab/slab.cpp:30-52 | insert takes the head of the chain, or appends; the chain still visits exactly the vacant slots |
| Slab.SlabVector.Remove | examples/slab/slab.cpp:54-65 | the removed slot becomes the head of the chain |
| Slab.SlabVector.Foreach | examples/slab/slab.cpp:74-108 | for any number of threads the parts together visit each occupied slot once |
| Slab.OccupiedIs | examples/slab/slab.cpp:74-108 | the visited slots are the occupied ones, without repetition |
| Slab.CollectedFrom | examples/slab/slab.cpp:162-168 | indexing any of the occupied slots, in any order, gives a part of the index |
| Slab.RebuildIsIndex | examples/slab/slab.cpp:162-168 | rebuilding from all occupied slots gives the index, in whatever order the threads call back |
| Slab.Store.Rebuild | examples/slab/slab.cpp:162-168 | the constructor on a slab in use finds the index that the store had |
| Slab.Store.Insert | examples/slab/slab.cpp:170-185 | insert adds a new key, and fails for a key that is there or when appending fails |
| Slab.Store.Remove | examples/slab/slab.cpp:187-198 | remove takes the key out and says whether it was there |
| Slab.Store.Get | examples/slab/slab.cpp:200-208 | get returns the value of the key, or fails |

## Left out

- Memory orders weaker than sequential consistency, upgradeable locks, and exceptions inside a rehash.
- Growth of the hash map beyond 32 segments is not cut off in `MapState`, so `LevelsReached` ends where the size cannot reach the mask any more; `Segments` models the limit of 32.
- The serial `rehash()` is covered by the visits of `MapState`; `reserve` with is_initial, swap, move, copy and `operator==` of the hash map are not modelled.
- A visit of `defragment` loads the mask when it is invoked and releases its bucket locks in one step at the end.
- The item lock is tried several times in the source; the model allows giving up only while another accessor is in the way.
- `push_and_try_lock` of `defragment` (concurrent_hash_map.hpp:2946-2958) takes each item of the bucket exclusively for a moment. Nobody can reach these items meanwhile except through accessors taken before, since the bucket is locked exclusively, so only its failure matters; that is the action `Drop`, which the model allows at any time.
- Iterators of the hash map, `MapState` values that are pointers, and freeing of the memory of nodes.
- `transaction::automatic`, explicit `commit`, transactional locks, and ranges of several cells per snapshot in `Transactions`.
- UndoVector.Vector.Transact: for elements at risk, what an abort leaves is stated for a run that was not interrupted by a fault; after a fault all other elements are restored.
- `vector::assign(count, value)`, the constructors of the vector and its assignments from other vectors; `vector::swap` appears only inside the swap of two large strings.
- `vector::resize(count, value)` returns early when the capacity equals the count; only `resize(count)` is modelled.
- Aliasing sources of the vector and of the string: the items of an operation are values.
- Moves of strings.
- Each string of the model numbers its own arrays, so that swapping two large strings exchanges these numberings along with the pointers, and the rollback exchanges them back.
- Forms of the string operations with a count and a character, and the search and comparison functions.
- The arrays of `StringUnion` are numbered sequences kept in a map, because a pointer has to be read back from bytes, and an allocation fails when the numbers that fit a pointer are used up; the loops over their cells are those of `UndoVector`.
- Key 0 of the crit-bit tree, which marks the empty entry, and early stops of its foreach.
- In the crit-bit heap all descents read the tree; `insert_leaf` allocates before its descent in the source and after it in the model.
- Slab: crashes, because a value is stored over the chain of vacant slots before the transaction starts; the segment vector is a sequence.
- Pools, containers such as `array` and `segment_vector`, slices, and the other examples.
