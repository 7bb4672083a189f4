# OneBase: a verified model

OneBase is a small relational database. This project models five connected parts of it and proves what they are for:

- **The B+ tree index** on pages of a buffer pool: array pages with in-place shifts, search, insertion with splits up to a new root, removal with borrowing, merging and root shrinking, and iteration along the leaf chain (`TreePages`, `PagePool`, `BPlusTree`, `TreeIterator`; the meaning of each page step on values is in `TreeShape`, `TreeSteps`, `LeafSteps`, `InnerSteps`, `TreeUpdates`, `TreeInsertion`, `TreeRemoval`; what the code as written may spoil is in `TreeSoundness`, `TreeWrecks` and `TreeForesight`).
- **The two-phase-locking lock manager**: every critical section between taking the latch and waiting or returning is one atomic step over the lock table, the transactions and the data they read and write (`LockTable`, `LockRuns`); the theorems speak about every interleaving of every length.
- **The buffer pool with LRU-K replacement** (`LruK`, `BufferPool`), proved against a plain page store (`PoolRuns`). `PoolContract` proves that it keeps the contract that the tree (`PagePool`) and the table heap rely on.
- **The slotted table page and the table heap** on one byte array per page (`TablePages`, `TableHeaps`).
- **The optimizer and the scan, join and aggregation executors** (`Values`, `Expressions`, `Joins`, `Aggregation`, `Grouping`, `Scans`, `Plans`, `Optimizer`), on sequences and bags of rows (`Bags`, `Places`). `Meanings` says what expressions, scans, joins, sorts and printed numbers come to in terms of integers, texts and positions.

Two flags mark the repairs of code that does not do what it is for. `Tree.repaired` copies the donor's key on an internal left borrow and keeps the size of the emptied page on an internal merge; `keepGranted` leaves the shared lock granted while an upgrade waits. With a flag off, the model is the code as written, and the theorems say exactly when it goes wrong.

A tree state is *well-formed* (`TreeShape.Holds`) if some assignment of levels and key ranges to pages has: sorted keys inside the ranges, separators bounding the subtrees, exact parent pointers, leaves at equal depth, minimum and maximum sizes, a leaf chain in key order, and entries that are exactly a given finite map.

## Model

| member | source | states |
|---|---|---|
| BPlusTree.Tree.Insert | src/storage/index/b_plus_tree.cpp:73-254 | On any well-formed tree: true exactly for an absent key, and then the map gains that pair; false leaves pages and root as they are. The result is well-formed after splits at any height, pages outside the tree keep their content, all pin counts are restored, and three free frames suffice |
| BPlusTree.Tree.Remove | src/storage/index/b_plus_tree.cpp:257-540 | The map loses exactly the key, pins are restored, four free frames suffice. The result is well-formed if and only if the repairs are on or the guard `SpoilsRemoval` on the old pages is false. When it is not, no assignment of levels and ranges makes the pages well-formed, but the leaves still hold exactly the map, and lookups find exactly its keys outside one interval: empty unless an internal page with a larger left neighbour lent a stale key, and then between that key and the neighbour's last one |
| TreeWrecks.ReadableStale | src/storage/index/b_plus_tree.cpp:450-470 | With one separator overwritten, the leaves hold the same map and lookups find exactly the keys that do not lie between the two separators below that page |
| TreeWrecks.ReadableSame | src/storage/index/b_plus_tree.cpp:288-316 | Wrong parent pointers change no lookup |
| TreeForesight.WouldSpoil | src/storage/index/b_plus_tree.cpp:319-540 | An executable test of that guard that reads pages and changes nothing: true if and only if removing the key as written would spoil the tree |
| BPlusTree.Tree.GetValue | src/storage/index/b_plus_tree.cpp:35-70 | The value of the map at the key or none; nothing changes but a pin taken and given back |
| BPlusTree.Tree.FindLeafPage | src/storage/index/b_plus_tree.cpp:288-316 | The one leaf whose range covers the key, with no pin left on it |
| BPlusTree.Tree.Split | src/storage/index/b_plus_tree.cpp:130-177 | A leaf one entry too large is split and its separator raised, through any number of full ancestors: the tree is well-formed again with the same map |
| BPlusTree.Tree.SplitInternal | src/storage/index/b_plus_tree.cpp:198-254 | The same for an internal page, including the parent pointers of the children that move |
| BPlusTree.Tree.CoalesceOrRedistribute | src/storage/index/b_plus_tree.cpp:319-411 | One leaf short of one entry is mended by borrowing or merging, the map unchanged; the neighbour looked for always exists |
| BPlusTree.Tree.CoalesceOrRedistributeInternal | src/storage/index/b_plus_tree.cpp:414-540 | The same for an internal page and upwards to the root, ending because the level rises; as written it reports by its ghost result whether a child went astray |
| TreeRuns.Run | src/storage/index/b_plus_tree.cpp:35-285 | Any sequence of Insert, Remove and GetValue answers like the same sequence on a finite map; as written up to the first Remove that would spoil the tree, if there is one |
| TreeHeight.HeightBound | src/include/onebase/storage/page/b_plus_tree_page.h:21 | A well-formed tree of height h of at least two holds at least 2 * ceil(M/2)^(h-2) * floor(L/2) keys |
| TreeSoundness.StaleExact | src/storage/index/b_plus_tree.cpp:450-470 | With one separator overwritten by another key, the pages are a well-formed tree under some reading if and only if no stored key lies between the two |
| TreeDefects.LeftBorrowAsWritten | src/storage/page/b_plus_tree_internal_page.cpp:135-143 | After an internal left borrow as written, a lookup from the root finds a key if and only if it is stored and does not lie, below the common parent, between the recipient's stale slot-0 key and the donor's last key |
| TreeSoundness.OnceAstray | src/storage/index/b_plus_tree.cpp:487-513 | One wrong parent pointer makes the pages ill-formed under every assignment of levels and ranges, as long as the child lists stay |
| TreeDefects.MergeAsWritten | src/storage/index/b_plus_tree.cpp:487-513 | An internal merge as written always leaves a moved child whose parent is the emptied page, so its result is well-formed under no assignment that covers the surviving page |
| TreeSamples.SampleSpoils | src/storage/index/b_plus_tree.cpp:414-540 | In each of two well-formed trees of seven pages (`SampleHolds`), removing key 45 meets one of the two defects |
| TreeSamples.SampleHolds | src/include/onebase/storage/page/b_plus_tree_page.h:21 | Both of those trees are well-formed with their maps |
| TreeSizes.DefaultsOverflow | src/storage/index/b_plus_tree.cpp:17-26 | Of all maxima up to the defaults 339 and 510, exactly the defaults let an insert before the split write past the page (bytes 4100 and 4104 of 4096) |
| TreeIterator.Iterator.Increment | src/storage/index/b_plus_tree_iterator.cpp:41-63 | From a stored key to the least larger stored key or the end, over any number of leaves; pins are kept if and only if the repair is on or no leaf boundary is crossed |
| TreeIterator.Iterator.Deref | src/storage/index/b_plus_tree_iterator.cpp:20-38 | The least stored key from the iterator's bound on, with its value |
| TreeIterator.BeginAt | src/storage/index/b_plus_tree.cpp:574-610 | The position of the least stored key that is not below the argument, or the end |
| TreeIterator.Collect | src/storage/index/b_plus_tree_iterator.cpp:41-75 | From an iterator to the end: exactly the stored pairs from its bound on, ascending, each once; as written one free frame per leaf ahead suffices |
| TreeIterator.Scan | src/storage/index/b_plus_tree.cpp:543-571 | Begin to End visits exactly the stored pairs in ascending key order |
| LockTable.LockManager.LockSharedCall | src/concurrency/lock_manager.cpp:6-45 | The critical section up to the wait or the return is the atomic step of the state machine. Refused if and only if the caller is SHRINKING, and then it ends ABORTED, or ABORTED; otherwise held if and only if the record is in one of its sets, and nothing changes; otherwise granted if and only if no granted request is exclusive, and else it waits. The new request stands last in the queue, and a grant adds the record to the shared set |
| LockTable.LockManager.LockExclusiveCall | src/concurrency/lock_manager.cpp:47-86 | The same for an exclusive lock: held if and only if the record is in the exclusive set, granted if and only if every granted request is the caller's own |
| LockTable.LockManager.LockUpgradeCall | src/concurrency/lock_manager.cpp:88-144 | The same for an upgrade, as written and with the shared grant kept: refused also if another upgrade is pending, and then the caller ends ABORTED, or if the caller has no granted request; granted if and only if all other granted requests are the caller's own, and then the record moves from the shared to the exclusive set. Its first granted request becomes exclusive, without its grant while it waits as written |
| LockTable.LockManager.WakeShared | src/concurrency/lock_manager.cpp:26-44 | A waiter that looks again is refused if and only if it is ABORTED, and its request leaves the queue; it is granted if and only if no granted request is exclusive, and only its own request gets the grant; else nothing changes |
| LockTable.LockManager.UnlockCall | src/concurrency/lock_manager.cpp:146-168 | Exactly the first request of the transaction leaves the queue, the sets forget the record, GROWING becomes SHRINKING and every other state stays |
| LockTable.TransactionManager.Commit | src/concurrency/transaction_manager.cpp:15-28 | All records of both lock sets are unlocked once each; the transaction ends COMMITTED with empty sets |
| LockTable.ReleasedExact | src/concurrency/transaction_manager.cpp:15-43 | What Commit and Abort leave of a queue: the requests of all others in their order, and of the transaction's own all but the first one, or two if the record is in both sets |
| LockSafety.ShapedAlways | src/concurrency/lock_manager.cpp:6-168 | In every reachable state of every run: a waiter is GROWING and the request it will grant is still in its queue, as it left it and found by a ticket no other request has; the upgrading flag of a record is set if and only if exactly one transaction waits for an upgrade of it |
| LockExclusion.GrantedCompatible | src/concurrency/lock_manager.cpp:22-85 | As written, in every reachable state two granted requests on a record are both shared or of one transaction |
| LockExclusion.MutualExclusion | src/concurrency/lock_manager.cpp:88-144 | In every run, a record in somebody's exclusive set is in nobody else's lock sets: with the repair always, as written if no exclusive lock was granted over a pending upgrade |
| LockExclusion.ExclusionExact | src/concurrency/lock_manager.cpp:121-122 | As written, after any run free of the defect the next step keeps mutual exclusion if and only if it is not an exclusive request that meets a queue with a pending upgrade and no other granted request |
| LockExclusion.SafeWithoutUpgrades | src/concurrency/lock_manager.cpp:88-144 | A run whose clients never call LockUpgrade is free of that defect |
| Serializability.Serializable | src/concurrency/lock_manager.cpp:6-168 | In every run whose reads happen under a lock and whose writes under an exclusive one, the serial execution in order of each transaction's last grant gives every read the same value and the same final data; with the repair always, as written without the defect |
| LockOvertaking.OvertakingSpoils | src/concurrency/lock_manager.cpp:121-143 | As written, whenever after any run an exclusive request is about to be granted over a pending upgrade whose transaction has accessed the record, the run can go on to a history in which no order of the transactions agrees with all conflicts |
| WakeUps.WakeUpExact | src/concurrency/lock_manager.cpp:26-36 | If every waiter that could go on has been notified, the next step keeps that so if and only if it is not the upgrade that takes away the only grant another holder was waiting for |
| WakeUps.NoLostWakeUps | src/concurrency/lock_manager.cpp:124-168 | In every run a waiter that could go on has been notified since it last looked: with the repair always, as written without that upgrade |
| WakeUps.ProperRunsAreTold | src/concurrency/lock_manager.cpp:47-86 | As written, no wake-up is lost for clients that never ask for an exclusive lock on a record they hold shared |
| LockSets.LockSetsMatch | src/concurrency/lock_manager.cpp:40-43 | For the same clients, in every run lock sets and queued requests match one to one, but for the pending upgrader |
| LockSets.NothingLeft | src/concurrency/transaction_manager.cpp:15-43 | For the same clients, a transaction that is through with commit or abort has no request left in any queue |
| LockSets.UnlockExact | src/concurrency/lock_manager.cpp:151-156 | Unlock leaves no request of the transaction if and only if there was at most one |
| LockDefects.LostUpdate | src/concurrency/lock_manager.cpp:121-143 | A run as written whose history equals no serial order of its transactions |
| LockDefects.LostWakeUp | src/concurrency/lock_manager.cpp:121-134 | A run as written in which a waiter could go on and was never notified |
| LockDefects.LeakedLock | src/concurrency/lock_manager.cpp:146-156 | A run from the start after which, whatever follows, a committed transaction's exclusive grant stays and nobody else ever gets a lock on the record |
| LruK.LRUKReplacer.Evict | src/buffer/lru_k_replacer.cpp:9-59 | A victim exists if and only if some frame is evictable; it is the LRU-K victim computed from the whole access trace, and only it is forgotten |
| LruK.LRUKReplacer.RecordAccess | src/buffer/lru_k_replacer.cpp:61-72 | Every history stays the last min(k, n) accesses of its frame since it is tracked |
| LruK.VictimUnique | src/buffer/lru_k_replacer.cpp:9-59 | There is one such victim, so the iteration order of the map cannot matter |
| BufferPool.BufferPoolManager.NewPage | src/buffer/buffer_pool_manager.cpp:18-60 | Refused if and only if all frames are pinned, and then nothing changes; otherwise a fresh zeroed page with one pin and every page's content kept. It takes the first free frame, and without one that of the page which LRU-K evicts by the recorded accesses; its own access is recorded, as the first since it is in memory |
| BufferPool.BufferPoolManager.FetchPage | src/buffer/buffer_pool_manager.cpp:62-113 | Refused if and only if all frames are pinned and the page is not resident; otherwise one more pin on that page alone and every page's content kept. Every successful fetch, a hit included, records one access to the frame of the page, a hit keeps the accesses before it, and a load takes a frame as NewPage does |
| BufferPool.BufferPoolManager.UnpinPage | src/buffer/buffer_pool_manager.cpp:115-141 | Refused if and only if the page has no pin; otherwise one pin fewer on that page alone, no content changed and no access recorded |
| BufferPool.BufferPoolManager.DeletePage | src/buffer/buffer_pool_manager.cpp:143-170 | Refused if and only if the page is pinned; otherwise it leaves memory and its disk content shows again, all others kept |
| BufferPool.BufferPoolManager.FlushAllPages | src/buffer/buffer_pool_manager.cpp:189-197 | Every resident page equals its disk copy afterwards, no content and no pin changed |
| BufferPool.AllPinnedCount | src/buffer/buffer_pool_manager.cpp:18-60 | In every state of the pool, all frames are pinned if and only if there are as many pinned pages as frames, and the free list is empty if and only if there are as many resident pages |
| BufferPool.FramesShared | src/buffer/buffer_pool_manager.cpp:18-170 | Resident pages and free frames add up to the frames |
| BufferPool.CleanUnpinExact | src/buffer/buffer_pool_manager.cpp:115-141 | A page reported clean survives its eviction if and only if the frame equals the disk |
| PoolRuns.Run | src/buffer/buffer_pool_manager.cpp:18-197 | Every sequence of calls gets, refusals included, exactly the replies of a plain page store that tracks contents, pins and a bounded set of resident pages; with memory full, the page that leaves is the LRU-K victim of the store's own log of fetches and creations, among the pages without a pin |
| PoolRuns.RunFresh | src/buffer/buffer_pool_manager.cpp:7-14 | The same for a new pool and the empty store |
| PoolRuns.VictimPage | src/buffer/buffer_pool_manager.cpp:25-48 | The frame the replacer evicts by its trace of frames holds the page that is the victim by the log of pages |
| PoolContract.FetchPage | src/buffer/buffer_pool_manager.cpp:62-113 | With a free frame the pool does what the tree and the heap expect of a fetch: no refusal, one pin more, contents kept, the count of free frames exact |
| PoolContract.NewPage | src/buffer/buffer_pool_manager.cpp:18-60 | The same for a new page |
| TablePages.TablePage.InsertTuple | src/storage/page/table_page.cpp:63-76 | Accepted if and only if the tuple and four bytes fit between 16 + 4 n, for n slots, and the free pointer; the new slot holds the given bytes, every other slot its own, and live tuples stay apart from each other and from the directory |
| TablePages.TablePage.UpdateTuple | src/storage/page/table_page.cpp:94-107 | Accepted if and only if the growth is at most that space; what an accepted update leaves is right if and only if the new size is at most that space |
| TablePages.Layout | src/storage/page/table_page.cpp:14-51 | Which bytes of a page, low ones first, are the next page as a signed number, the count, the free pointer, and the offset and length of each slot |
| TablePages.UpdateExact | src/storage/page/table_page.cpp:94-107 | That equivalence on every well-formed page, as long as the bytes stay on the page |
| TablePages.InsertOk | src/storage/page/table_page.cpp:58-76 | A fitting insert keeps the page well-formed and takes the tuple's size and one slot from the free space |
| TablePages.DeleteOk | src/storage/page/table_page.cpp:89-92 | A delete empties its slot and changes no other |
| TablePages.UpdateSpoils | src/storage/page/table_page.cpp:94-107 | On a page whose one tuple has 2500 bytes, an update to 1590 bytes is accepted and runs into the header |
| TableHeaps.TableHeap.InsertTuple | src/storage/table/table_heap.cpp:18-52 | One new live record with those bytes under an unused RID, all others as before: behind the last slot of the first page of the chain that has room for it, or in slot 0 of a fresh page behind the last one if none has; with two free frames every tuple that fits an empty page is stored |
| TableHeaps.TableHeap.GetTuple | src/storage/table/table_heap.cpp:54-68 | The bytes of that record, pins and contents kept |
| TableHeaps.TableHeap.DeleteTuple | src/storage/table/table_heap.cpp:79-90 | That record is gone and no other |
| TableHeaps.Scan | src/storage/table/table_heap.cpp:92-162 | Begin to End lists the live records page by page and slot by slot |
| TableHeaps.ChainRowsExact | src/storage/table/table_heap.cpp:96-160 | That list has every live record once, with its bytes, and nothing else; the page chain has no cycle |
| TableHeaps.ChainRowsInOrder | src/storage/table/table_heap.cpp:96-160 | Of two rows of the list the first stands on an earlier page of the chain, or in an earlier slot of the same page |
| Values.KeyAgreement | src/type/value.cpp:104-118 | For two values of one type, printing alike and comparing equal coincide if and only if they are not look-alikes: a null and a value it prints or compares like, or two confused FLOATs |
| Values.FloatText | src/type/value.cpp:282-283 | Two FLOATs print alike if and only if they have the same sign, that of a zero included, and round to the same hundredth |
| Meanings.FloatReads | src/type/value.cpp:282-283 | A FLOAT prints as its hundredths, read back from the text, behind a sign of its own |
| Meanings.HundredthsNearest | src/type/value.cpp:282-283 | These are the nearest hundredths, of two the even one |
| Meanings.IntegerReads | src/type/value.cpp:280-281 | An INTEGER is read back from its printed digits, negative exactly behind a minus sign |
| Meanings.CompareIntegers | src/type/value.cpp:48-134 | The six comparisons of INTEGERs are those of their numbers, a null counting as 0 |
| Meanings.CompareReals | src/type/value.cpp:48-134 | The same for FLOATs, the sign bit negating the size |
| Meanings.CompareTexts | src/type/value.cpp:48-134 | The same for VARCHARs in the order of a dictionary: a proper prefix comes first, otherwise the first different character decides, a null counting as the empty text |
| Meanings.CompareTruths | src/type/value.cpp:104-134 | BOOLEANs are equal or not and have no order, a null counting as false |
| Meanings.CompareMixed | src/type/value.cpp:48-134 | Values of different types, or of the type INVALID, cannot be compared |
| Meanings.Arithmetics | src/type/value.cpp:138-197 | Sum, difference and product of two INTEGERs where they fit into 32 bits; quotient and remainder truncated toward zero, nothing for a zero divisor |
| Meanings.DivisionUnique | src/type/value.cpp:174-197 | There is only one quotient and remainder with a remainder smaller than the divisor and of the sign of the dividend |
| Meanings.Logics | src/type/value.cpp:201-209 | AND and OR of two BOOLEANs, a null counting as false |
| Meanings.CombinationPasses | src/include/onebase/execution/expressions/logic_expression.h:14-34 | AND and OR of two predicates hold for a row when both hold, or one of them, and fail when either fails, the second one included |
| Meanings.IntegersPass | src/include/onebase/execution/expressions/comparison_expression.h:14-40 | Whatever its two sides are, a comparison of INTEGERs holds for a row exactly when their numbers stand in that relation |
| Meanings.TextsPass | src/include/onebase/execution/expressions/comparison_expression.h:14-40 | The same for VARCHARs |
| Meanings.IntegersMatch | src/include/onebase/execution/expressions/column_value_expression.h:15-19 | In a join, tuple 0 of a comparison is the left row and any other the right one, in either order of the operands |
| Meanings.TextsMatch | src/include/onebase/execution/expressions/column_value_expression.h:15-19 | The same for VARCHAR columns |
| Meanings.CombinationMatches | src/include/onebase/execution/expressions/logic_expression.h:20-34 | AND and OR of two join predicates, as for one row |
| Meanings.Decides | src/execution/executors/seq_scan_executor.cpp:21-25 | A predicate with a BOOLEAN value decides, a null as false; any other value fails |
| Joins.NestedLoopJoin | src/execution/executors/nested_loop_join_executor.cpp:13-51 | The nested loops fail if and only if some pair makes the predicate fail, and otherwise give `NestedRows`; `Meanings.JoinInOrder` and `Meanings.IntegerJoin` say which rows these are |
| Meanings.JoinInOrder | src/execution/executors/nested_loop_join_executor.cpp:13-51 | The rows are those of exactly the pairs that match, left row first, ordered by the position of the left row and then by that of the right one |
| Meanings.UnfilteredJoin | src/execution/executors/nested_loop_join_executor.cpp:13-51 | Without a predicate all pairs are given, in that order |
| Meanings.IntegerJoin | src/execution/executors/nested_loop_join_executor.cpp:13-51 | For each of the six comparisons of two INTEGER columns: exactly the pairs whose numbers stand in that relation, in that order |
| Joins.HashJoin | src/execution/executors/hash_join_executor.cpp:12-48 | Build and probe fail if and only if some key fails, and otherwise give the pairs whose printed keys agree, right rows outside |
| Meanings.HashInOrder | src/execution/executors/hash_join_executor.cpp:12-48 | The rows are those of exactly the pairs whose printed keys agree, left row first, ordered by the position of the right row and then by that of the left one |
| Joins.JoinExact | src/execution/executors/hash_join_executor.cpp:12-48 | For any predicate and keys and left rows of one width, the hash join is a permutation of the nested loop join, duplicates included, if and only if predicate and printed keys agree on every pair of rows |
| Joins.JoinRewriteExact | src/optimizer/optimizer.cpp:76-128 | For columns of one type, FLOAT included, and either operand order, that holds if and only if no two keys of the two sides are look-alikes |
| Joins.FloatJoinExact | src/optimizer/optimizer.cpp:76-128 | For FLOAT columns without nulls, if and only if no two different keys of the two sides round to the same hundredth and no zeros of different sign meet |
| Joins.HashIsNested | src/execution/executors/hash_join_executor.cpp:12-48 | For any predicate and keys that agree on all pairs, the two joins give the same bag |
| Joins.FloatKeysDiffer | src/type/value.cpp:282-283 | 2^-10 and 2^-9, and -0.0 and 0.0, are each treated differently by the two joins |
| Joins.NullKeysDiffer | src/type/value.cpp:273-276 | So are an INTEGER null and 0 |
| Aggregation.Init | src/execution/executors/aggregation_executor.cpp:12-153 | Fails if and only if some row has no input; otherwise one row per printed key (one row even for no input without group-by columns), each from the accumulators of its rows. `Aggregation.InputsSucceed` says when a row has an input, `Grouping.AggregationExact` what the rows hold |
| Aggregation.InputsSucceed | src/execution/executors/aggregation_executor.cpp:36-82 | A row has an input if and only if all group expressions and all arguments have a value and every argument of SUM, MIN or MAX is an integer or null |
| Aggregation.InputsInOrder | src/execution/executors/aggregation_executor.cpp:36-67 | The inputs are those of the rows in their order, with the values of the expressions in their order |
| Grouping.AggregationExact | src/execution/executors/aggregation_executor.cpp:36-153 | With no two columns of one kind other than COUNT(*), that output has one row per distinct group tuple with correct COUNT, SUM, MIN and MAX of the stored integers (nulls left out, counters and sums wrapped to 32 bits) if and only if group values that print alike are the same |
| Grouping.Wrapped | src/execution/executors/aggregation_executor.cpp:59-92 | A wrapped number is in the range of 32 bits and off by a multiple of 2^32, by none if it was in range |
| Grouping.OncePerKindExact | src/execution/executors/aggregation_executor.cpp:23-34 | A list of columns is computed right for every input with such keys if and only if it has no kind twice, COUNT(*) aside |
| Grouping.SharedSample | src/execution/executors/aggregation_executor.cpp:59-92 | For every kind but COUNT(*), two columns of that kind over the arguments 1 and 2 of one row are not both right |
| Grouping.ShownValue | src/execution/executors/aggregation_executor.cpp:59-92 | Whatever the columns, a column shows the aggregate over the arguments of all columns of its kind |
| Grouping.PlainKeysExact | src/execution/executors/aggregation_executor.cpp:44-50 | INTEGER and BOOLEAN group columns print apart, however many there are |
| Grouping.CountsAddUp | src/execution/executors/aggregation_executor.cpp:121-125 | The COUNT(*) column adds up to the number of input rows |
| Grouping.GroupedPermuted | src/execution/executors/aggregation_executor.cpp:36-153 | Two groupings of permuted inputs are permutations of each other |
| Scans.BuildIndex | src/catalog/catalog.cpp:59-68 | The index lists, for every key, the records with that key in heap order |
| Scans.SeqScan | src/execution/executors/seq_scan_executor.cpp:9-42 | Fails if and only if the predicate fails on some row, and otherwise gives `ScanRows`; `Meanings.ScanInOrder` and `Meanings.IntegerFilter` say which rows these are |
| Meanings.ScanInOrder | src/execution/executors/seq_scan_executor.cpp:9-42 | The rows are those of exactly the records that pass, in heap order |
| Meanings.UnfilteredScan | src/execution/executors/seq_scan_executor.cpp:21-25 | Without a predicate all records are given, in heap order |
| Meanings.IntegerFilter | src/execution/executors/seq_scan_executor.cpp:9-42 | For each of the six comparisons of an INTEGER column and a constant, in either order: exactly the records whose number stands in that relation, in heap order |
| Scans.IndexScan | src/execution/executors/index_scan_executor.cpp:11-62 | The same for the rows found under an INTEGER constant, each checked again; no rows under an expression that is no constant, a failure under a constant of another type |
| Scans.IndexScanAgrees | src/execution/executors/index_scan_executor.cpp:11-62 | On a table unchanged since CreateIndex it gives the rows of the filtered sequential scan in the same order |
| Scans.StaleIndexExact | src/execution/executors/insert_executor.cpp:33-39 | After any insertions, wherever in the heap they went, updates and deletions since CreateIndex: as long as the index scan has a result, it is that of the sequential scan if and only if every record that has the key now had it when the index was made |
| Scans.StaleIndexFetches | src/execution/executors/delete_executor.cpp:32-38 | The index scan has a result if and only if no record that had the key has been deleted |
| Scans.StaleIndexSamples | src/execution/executors/update_executor.cpp:30-38 | One record each: an insert and an update that the index scan misses, and a delete after which it fetches a missing record |
| Optimizer.Optimize | src/optimizer/optimizer.cpp:12-23 | Node by node: nested loops over left.i = right.j, in either order, become the hash join of these columns; a scan for column = constant, in either order, becomes an index scan under the first listed index on that column that supports point lookups; every other node keeps its operator. The result has the same possible outputs as any plan that meets its guards, up to the order of rows, and row by row where no join is rewritten |
| Optimizer.BagKept | src/optimizer/optimizer.cpp:12-128 | Every plan whose nodes meet their guards has, before and after, the same possible outputs up to the order of rows, failures included |
| Optimizer.OrderKept | src/optimizer/optimizer.cpp:25-74 | Where no join is rewritten, the outputs are the same row by row, limits included |
| Optimizer.ScanRuleExact | src/optimizer/optimizer.cpp:25-74 | With a fresh index the scan rule keeps the outputs if and only if the constant is INTEGER or the table is not empty |
| Optimizer.EmptyTableSample | src/optimizer/optimizer.cpp:25-74 | On an empty table with an INTEGER index, the scan for a VARCHAR constant yields no rows and its rewrite fails |
| Optimizer.LimitSeesOrder | src/optimizer/optimizer.cpp:76-128 | Two rows on each side for which the rewritten join starts with another row, as a limit above it would show |
| Meanings.BeforeByKeys | src/execution/executors/sort_executor.cpp:25-42 | For INTEGER sort keys, a row comes before another if and only if the first key that differs is smaller for ASC, or larger for DESC |
| Meanings.SortedRises | src/execution/executors/sort_executor.cpp:11-43 | Sorted by one INTEGER key, the numbers of the rows never fall for ASC and never rise for DESC |
| Meanings.SortSucceeds | src/execution/executors/sort_executor.cpp:11-43 | Any rows with INTEGER sort keys, however many and in whatever directions, have a sorted output |
| Meanings.SortKeepsRows | src/execution/executors/sort_executor.cpp:11-43 | A sort loses and adds no row, and has no output if two of several rows cannot be compared |
| Meanings.SortOfOne | src/execution/executors/sort_executor.cpp:11-43 | One row is its own sorted output, even if its keys cannot be compared |
| Meanings.LimitKeepsFirst | src/execution/executors/limit_executor.cpp:15-24 | A limit of n keeps exactly the first n rows, or all if there are fewer |
| Meanings.ProjectsEach | src/execution/executors/projection_executor.cpp:14-33 | A projection gives every row the values of its expressions, in order |

## Findings

Each row is a place where the code departs from what it is for.

| where | as written | exactly when, or an input | intended | confidence |
|---|---|---|---|---|
| src/storage/page/b_plus_tree_internal_page.cpp:135-143 | an internal left borrow leaves the recipient's unread slot-0 key as it is, and b_plus_tree.cpp:456 makes that key the separator | goes wrong if and only if a stored key lies between that key and the donor's last key: the tree `TreeSamples.Pages(true)`, key 45 | the donor's last key becomes the separator, so that every stored key can be found | proved: TreeSoundness.StaleExact, BPlusTree.Tree.Remove, TreeSamples.SampleSpoils |
| src/storage/index/b_plus_tree.cpp:487-513 | an internal merge gives the moved children no new parent, because its loop reads a size that MoveAllTo has set to 0 | every merge of internal pages: the tree `TreeSamples.Pages(false)`, key 45 | moved children point to the page that now holds them | proved: TreeDefects.MergeAsWritten, TreeSoundness.OnceAstray, TreeSamples.SampleSpoils |
| src/storage/index/b_plus_tree_iterator.cpp:56-61 | going to the next leaf, the iterator unpins that leaf and not the one it fetched | every crossing of a leaf boundary | the pin that was taken is given back | proved: TreeIterator.Iterator.Increment |
| src/storage/index/b_plus_tree.cpp:17-26 | an insert into a full page comes before the split and writes past the page | exactly the default sizes 339 and 510, of all sizes up to them | one entry more than the maximum fits into a page | proved: TreeSizes.DefaultsOverflow |
| src/concurrency/lock_manager.cpp:121-122 | an upgrade that waits gives up its grant, and another transaction gets an exclusive lock between its read and its write | an exclusive request that meets a queue with a pending upgrade and no granted request but its own: the run `LockDefects.LostUpdateRun` | the upgrader keeps its shared lock while it waits (docs/lab4_concurrency_control_en.md:205-212) | proved: LockExclusion.ExclusionExact, LockOvertaking.OvertakingSpoils, LockDefects.LostUpdate |
| src/concurrency/lock_manager.cpp:121-134 | that upgrade frees a waiter and notifies nobody | another holder of the record waits for an exclusive lock, blocked by that grant alone: the run `LockDefects.SleepingRun` | a waiter that could go on is notified | proved: WakeUps.WakeUpExact, LockDefects.LostWakeUp |
| src/concurrency/lock_manager.cpp:151-156 | Unlock takes one request out, and a second one of the same transaction stays for good | the transaction has two requests in the queue, as after an exclusive request on a record it holds shared: the run `LockDefects.LeakRun` | after commit no request of the transaction is left | proved: LockSets.UnlockExact, LockDefects.LeakedLock |
| src/storage/page/table_page.cpp:94-103 | an update checks the growth but allocates the whole new size | the new size exceeds the free space: one tuple of 2500 bytes on a fresh page, updated to 1590 bytes | an update that does not fit is refused | proved: TablePages.UpdateExact, TablePages.UpdateSpoils |
| src/execution/executors/hash_join_executor.cpp:25-34 | a null prints as NULL but compares as 0, false or the empty string, so hash join and nested loop join differ | one key is a null and the other the default of its type or the string NULL: a null INTEGER, as a constant in a projection yields it, and 0 | the rewrite of a join keeps its rows | proved: Joins.JoinRewriteExact, Joins.NullKeysDiffer |
| src/type/value.cpp:282-283 | FLOAT keys print with two decimals and their sign, so unequal keys are joined and equal zeros are not | two different keys of the two sides round to the same hundredth, or zeros of different sign meet: 2^-10 and 2^-9, -0.0 and 0.0 | rows are joined exactly when their keys are equal | proved: Joins.FloatJoinExact, Joins.FloatKeysDiffer |
| src/execution/executors/aggregation_executor.cpp:23-34 | columns of one kind share an accumulator | two columns of one kind other than COUNT(*): one row with the arguments 1 and 2, whatever the kind | each column aggregates its own argument | proved: Grouping.OncePerKindExact, Grouping.SharedSample |
| src/execution/executors/aggregation_executor.cpp:44-50 | group values are joined by a bar that a VARCHAR may contain, so distinct groups are merged | different group tuples print alike: (a&#124;b, c) and (a, b&#124;c) | one row per distinct group tuple | proved: Grouping.AggregationExact, Grouping.BarsCollide |
| src/optimizer/optimizer.cpp:25-74 | the index scan fails on a constant of another type where the sequential scan has no row to fail on | the table is empty and the constant not INTEGER: an empty table and the constant 'x' | the rewrite of a scan keeps its output | proved: Optimizer.ScanRuleExact, Optimizer.EmptyTableSample |
| src/execution/executors/insert_executor.cpp:33-39 | an insert adds no entry to any index, so a later index scan misses the record | a record has the looked-up key that was inserted after the index was made: key 7 into an empty table | the index scan gives the rows of the sequential scan | proved: Scans.StaleIndexExact, Scans.StaleIndexSamples |
| src/execution/executors/update_executor.cpp:30-38 | an update changes no index, so a later index scan misses the record under its new key | a record has the looked-up key and had another when the index was made: key 1 updated to 7 | the index scan gives the rows of the sequential scan | proved: Scans.StaleIndexExact, Scans.StaleIndexSamples |
| src/execution/executors/delete_executor.cpp:32-38 | a delete removes no entry, so a later index scan fetches a record that is gone | some record that had the looked-up key when the index was made is deleted: key 7 | the index scan has a result | proved: Scans.StaleIndexFetches, Scans.StaleIndexSamples |

## Left out

- BPlusTree.Tree.Insert: needs `leafMax` and `innerMax` below the room in a page, which excludes the default sizes, because with them the code writes past the page (`TreeSizes.DefaultsOverflow`); and three frames that nobody has pinned, because with fewer the code dereferences a null page.
- BPlusTree.Tree.Remove: needs the same sizes and four such frames, for the same reasons; which lookups still succeed after a spoiled removal is given by an interval of keys, not page by page.
- TreeRuns.Run: with the repairs off, calls after a removal that spoils the tree are not modelled.
- TreeIterator.BeginAt: reads the size and the next page of the leaf before it gives the pin back, where b_plus_tree.cpp:603-607 reads them after; without other threads the values are the same.
- TreeIterator.Scan: with the iterator as written, for pools with a free frame for every leaf, since each leaf that is left stays pinned.
- PagePool.Pool: keeps a page as an object with arrays, not as bytes; that the buffer pool gives the pins and frames it assumes is `PoolContract`, the byte layout of tree pages is not modelled.
- BufferPool.BufferPoolManager.UnpinPage: a page that differs from the disk must be given back as dirty with its last pin, since a clean unpin then loses the change (`CleanUnpinExact`); `PoolRuns` refuses such a call on the client's side.
- BufferPool.BufferPoolManager.FetchPage: for ids that were allocated.
- LockTable.TransactionManager.Commit: goes through a snapshot of the lock sets, where transaction_manager.cpp:19-24 erases from the sets it iterates over.
- LockExclusion.MutualExclusion: clients make one lock call at a time and none after commit, and nobody is forced to ABORTED from outside; `LockRuns` has no such steps.
- TableHeaps.TableHeap.UpdateTuple: for accepted sizes that fit into the free space; `UpdateExact` covers the others on one page.
- TableHeaps.TableHeap.InsertTuple: page ids below 2^31, as their field in the page header requires.
- TablePages.UpdateExact: sizes above the free pointer, which would be written in front of the page, are not modelled.
- Aggregation.Init: a signed sum or count beyond 32 bits wraps around.
- Expressions.Evaluate: FLOAT arithmetic and integer overflow have no value.
- Values.FloatText: FLOATs are signed real numbers with two zeros, printed to the nearest hundredth and halves to the even one; infinities and NaN are not modelled.
- Scans.StaleIndexFetches: fetching a deleted record has no result; the code decodes a tuple without bytes there.
- Plans.Yields: both sides of a join are read to their end before they are joined, so a plan fails also where an empty left side would hide a failing right side; a sort of two or more rows asks that all of them can be compared. The rewrite of plan nodes in place and the row ids of output rows are not modelled, nor are output schemas that differ from the table's.
- Optimizer.BagKept: the guards on join keys and group keys speak about the rows the children yield.
- Statements that change tables (insert, delete and update executors) and the Utility executor, but for what they leave undone to indexes.
- Decoding tuples by schema: rows are sequences of values, and records of the executors are not tied to the bytes of the table heap.
- Reader-writer latches of tree pages, page guards, and concurrent use of pool and tree: each operation is one sequential step.
- File input and output: the disk is a map from page ids to contents.
- The binder, the SQL parser, the server, client and shell.
- Deadlocks and fairness of locks: the code does nothing about them.
