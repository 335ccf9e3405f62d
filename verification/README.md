# Verification of the core of Poseidon

Poseidon is a graph database for persistent memory. This project models its hardest parts in
Dafny and proves what they are for:

- **Transactions** (`Mvto*.dfy`, `GraphDb.dfy`, `GraphCalls.dfy`): multiversion timestamp ordering
  on nodes. A step system with the history of every object; serializability, repeatable reads,
  invisible aborts and vacuum over every interleaving; and the database calls as imperative methods
  on nodes whose lock, timestamps and version list change in place. Any sequence of calls is a run
  of the step system, and each call does what it promises.
- **CSR and deltas** (`Csr*.dfy`): the adjacency arrays for analytics, their patching with deltas,
  and the delta store; what every update returns, over every sequence of stores and updates.
- **B+-tree** (`Pb*.dfy`, `NodePool.dfy`, `Pool*.dfy`, `LeafChain.dfy`, `BPlusTree.dfy`): the
  persistent B+-tree with splits, borrowing and merging, first as a tree value and then on nodes in
  a table with linked leaves.
- **Fingerprinting tree** (`Fp*.dfy`): unsorted leaves with bitmaps and fingerprints, the median
  selection behind a split, and the recovery of the volatile branch nodes from the linked leaves.
- **Robin Hood hashing** (`RobinHood*.dfy`): probing, shifting, halving the info bytes, rehashing,
  and when the table overflows or loses keys.
- **Weighted shortest path** (`ShortestPath.dfy`), **buffer pool** (`LruList.dfy`,
  `BufferPool.dfy`), **relationship chains** (`RshipChains.dfy`) and **property chains**
  (`PropertyChains.dfy`).

A source path below is relative to the root of the repository. Code that changes its state is a
class or a method on arrays, proved against functions on values; the lemmas about those functions
state what the code is for. `Runs.dfy` defines the state and the answers of a sequence of calls.
`dafny verify dfyconfig.toml` checks the whole project.

## Model

| member | source | states |
|---|---|---|
| MvtoSerial.ReadsAreSerial | src/storage/graph_db.cpp:805-866 | in every run, a successful read by a transaction of an object it had not written returns what the committed transactions with smaller ids, run alone in id order, leave there, including those that commit after the read |
| MvtoSerial.RecordsAreSerial | src/storage/graph_db.cpp:217-366 | in every run, a record that nobody is writing holds what all committed transactions leave when run alone in id order; a deleted one is absent there |
| MvtoSerial.SerialRunIsLatest | src/storage/graph_db.cpp:957-1008 | the serial run leaves in an object what its largest committed writer wrote |
| MvtoEffects.RunAloneMeans | src/storage/graph_db.cpp:957-1008 | in the serial run an operation leaves the content put, nothing after a delete, and after edits for every property the value of the last edit that sets it, else what it was; the label likewise |
| MvtoEffects.UpdateRecorded | src/storage/graph_db.cpp:957-1008 | every accepted update adds its change to the operation of its transaction |
| MvtoEffects.ReadRecorded | src/storage/graph_db.cpp:805-866 | every successful read of an object its transaction has not written is among the reads that the serial theorem speaks of, and every main record handed out is remembered |
| MvtoSteps.StartCommitKeeps | src/storage/graph_db.cpp:497-507 | when a transaction commits, all its writes can count at once: no younger transaction has read what it replaced |
| MvtoSteps.VisibleIsLatest | src/tx/txn_data.hpp:281-307 | what a transaction sees of an object it does not own is the content of the largest committed writer below it |
| MvtoSteps.StaleReferenceThrows | src/storage/graph_db.cpp:957-1008 | an update through a reference into the version list of a record that the transaction does not own is refused |
| MvtoRuns.RunKeepsInv | src/storage/graph_db.cpp:202-657 | the database invariant (locks are exactly the dirty lists, every version is committed history, every read is still the latest below its reader) holds after every run |
| MvtoRuns.CommitNeverThrows | src/storage/graph_db.cpp:217-366 | in every reachable state the commit of an object finds its own version, so the `transaction_abort` exit is not taken |
| MvtoVisibility.ReadsAreRepeatable | src/storage/graph_db.cpp:805-919 | in every run, an active transaction can read again, with the same content, whatever it has read of objects it has not written, in spite of commits, aborts, garbage collection and vacuum |
| MvtoVisibility.UncommittedIsPrivate | src/tx/txn_data.hpp:281-307 | a fetch by anyone but the lock owner never refers to the locked record or to the owner's uncommitted version |
| MvtoVisibility.OwnerReadsOwnWrite | src/tx/txn_data.hpp:281-307 | a lock owner reads its own latest write, and nothing after its own delete |
| MvtoEffects.ScanEnds | src/tx/txn_data.hpp:281-307 | the scan answers the first readable version that is valid, or an unknown id if it first meets the caller's own deletion |
| MvtoEffects.ScanRunsOut | src/tx/txn_data.hpp:281-307 | if it meets neither, it demands an abort exactly if some version is readable, and else answers an unknown id |
| MvtoEffects.OwnerAfterDelete | src/tx/txn_data.hpp:281-307 | a transaction that has deleted an object gets an unknown id for it, never an abort |
| MvtoEffects.UpdateFetchedEffect | src/storage/graph_db.cpp:957-1008 | a fetch and update succeeds exactly if the caller owns the object and has not deleted it, or nobody is writing it, it is valid for the caller and no younger transaction has read it; then the caller sees each changed property with its new value, every other as before, and the new label if one is given |
| MvtoEffects.UpdateHeldEffect | src/storage/graph_db.cpp:957-1008 | the same for an update through a main record fetched before, which succeeds exactly if the lock is free or the caller's and no younger transaction has read the record |
| MvtoEffects.DeleteEffect | src/storage/graph_db.cpp:1173-1227 | a delete of an object not written before succeeds exactly if no relationship is left and an update would; the caller then gets an unknown id |
| MvtoVisibility.UnlockedVersionsAgree | src/tx/txn_data.hpp:281-307 | the unlocked copies of an object never give one id two contents |
| MvtoVisibility.VacuumIsInvisible | src/storage/graph_db_gc.cpp:3-28 | vacuum changes nothing that an active transaction sees |
| MvtoVisibility.AbortRestores | src/storage/graph_db.cpp:607-657 | aborting one object restores the record before the first write as every other id reads it, or removes an insert |
| MvtoVisibility.FinishedHoldsNoLock | src/storage/graph_db.cpp:497-657 | no lock outlives the commit or abort of its owner |
| MvtoVacuum.OldestAdvances | src/storage/graph_db.cpp:497-507 | when a transaction leaves the active set, the oldest id becomes the smallest active one, or the leaver's if nobody is active |
| MvtoVacuum.VacuumRemoves | src/storage/graph_db_gc.cpp:3-28 | in every reachable state, vacuum removes a record if and only if it is deleted and none of its versions ends above the oldest id, and changes no record that is not deleted |
| MvtoVacuum.CommitDrops | src/tx/txn_data.hpp:412-426 | after the commit of an object no version is left that ends at or below the oldest id |
| MvtoVacuum.DeletedIsGone | src/storage/graph_db_gc.cpp:3-28 | 1 inserts an object and commits, 2 deletes it and commits, nobody else is active: the record is gone and the garbage list is empty |
| MvtoAbort.AbortIsInvisible | src/storage/graph_db.cpp:607-657 | whatever happens between a first write and its abort, every other id then sees exactly what it saw before the write, and the object is not locked |
| MvtoAbort.AbortedInsertIsGone | src/storage/graph_db.cpp:607-657 | whatever happens between an insert and its abort, nobody else sees the object; afterwards the record is removed and no continuation ever shows it |
| MvtoAbort.InsertIsPrivate | src/storage/graph_db.cpp:700-746 | an uncommitted insert is visible to nobody else |
| MvtoErrors.RestoredKind | src/tx/txn_data.hpp:281-307 | for any record and the record an aborted write leaves, another id gets the same kind of answer (main record, version, unknown id, abort) if and only if it was not an unknown id to which the old copy left behind is readable and not valid; such an id is told to abort |
| MvtoErrors.AbortedWriteKeepsKind | src/storage/graph_db.cpp:607-657 | whatever happens between a first write and its abort, `node_by_id` of another id gives the same kind of answer before the write and after the abort if and only if the id was not unknown before, or would find the old version valid; otherwise it turns from an unknown id into a `transaction_abort` |
| MvtoErrors.AbortedUpdateMakesAbort | src/storage/graph_db.cpp:607-657 | an object written by 5, updated by 7 and aborted: 3 did not know it before and must abort afterwards |
| MvtoOwnDelete.OwnDeleteVisible | src/storage/graph_db.cpp:1173-1227 | a delete after an own write always succeeds, and from then on until commit or abort another id sees what it saw before if and only if it is not a smaller id looking at an own insert |
| MvtoOwnDelete.OwnDeleteAborted | src/storage/graph_db.cpp:607-657 | if the transaction then aborts, every other id sees what it saw before the first write if and only if the object was not its own insert; an aborted insert becomes visible to everybody |
| MvtoOwnDelete.OwnDeleteCommitted | src/storage/graph_db.cpp:217-366 | if it commits, every other id sees the deletion above it and the old content below it if and only if it is not a smaller id looking at an own insert |
| MvtoOwnDelete.OwnDeleteStays | src/storage/graph_db.cpp:217-366 | after a write, a delete and a commit by one transaction, no sequence of garbage collections empties the version list: the own copy stays in it, locked, and the record stays in the table |
| MvtoOwnDelete.AbortedInsertComesBack | src/storage/graph_db.cpp:607-657 | on an empty database 7 begins, inserts object 1, deletes it and aborts: 8 did not see the object before and sees it afterwards |
| GraphDatabase.Node.FindValidVersion | src/tx/txn_data.hpp:281-307 | the loop over the version list returns the first readable valid version, and otherwise tells an unknown id from a version that demands an abort |
| GraphDatabase.Node.CollectGarbage | src/tx/txn_data.hpp:412-426 | the version list keeps, in order, exactly the versions whose end is above the oldest active id |
| GraphDatabase.Node.UpdateVia | src/storage/graph_db.cpp:957-1008 | an update through the main record or through a version locks, copies or rewrites in place exactly as the step function says, or changes nothing; accepted, it gives each changed property its new value in the caller's copy and leaves all others |
| GraphDatabase.Node.Commit | src/storage/graph_db.cpp:217-366 | the record after `commit_dirty_node`, for inserts, updates, deletes and records another transaction has deleted |
| GraphDatabase.Node.Abort | src/storage/graph_db.cpp:607-657 | the undo of one object, or that it has to be removed |
| GraphDatabase.DeleteShape | src/storage/graph_db.cpp:1173-1227 | a delete through a reference into the version list always fails the read-timestamp check, so a delete writes the main record or nothing |
| GraphDatabase.GraphDb.FetchAndUpdate | src/storage/graph_db.cpp:957-1008 | the tables after a fetch and an update are those of one step; when it succeeds is stated by comparing lock and timestamps, and what the caller then sees property by property |
| GraphDatabase.GraphDb.UpdateNode | src/storage/graph_db.cpp:957-1008 | an update through a main record fetched earlier is one step; the record is still there; success and what the caller then sees are stated likewise |
| GraphDatabase.GraphDb.CommitTransaction | src/storage/graph_db.cpp:497-605 | a commit call is a run of steps: leave the active set, commit every object, vacuum; it always succeeds; afterwards the oldest id is the smallest active one or the caller's, and every deleted record still there has a version that ends above it |
| GraphDatabase.GraphDb.AbortTransaction | src/storage/graph_db.cpp:607-657 | an abort call is a run of steps: leave the active set, undo every object, vacuum; the oldest id and the deleted records left are as after a commit |
| GraphDatabase.GraphDb.VacuumAll | src/storage/graph_db_gc.cpp:3-28 | the vacuum loop over the garbage list, which shrinks while it is traversed, equals the vacuum step, and no deleted record is left without a version that ends above the oldest id |
| GraphDatabase.GraphDb.Perform | src/storage/graph_db.cpp:202-657 | any call of a client, accepted or refused, takes the tables along the steps that belong to it |
| GraphDatabase.PerformAll | src/storage/graph_db.cpp:202-657 | any sequence of calls by any transactions keeps the tables valid, each call being its steps |
| GraphDatabase.HistoryRan | src/storage/graph_db.cpp:202-657 | the steps of a sequence of calls join to one run |
| GraphDatabase.CallsAreSerial | src/storage/graph_db.cpp:202-657 | after any sequence of calls on a new database, every record nobody is writing holds what the committed transactions leave when run alone in id order |
| GraphCalls.CallsDone | src/storage/graph_db.cpp:202-657 | in any sequence of calls on a new database each call does to the tables what it promises: reads raise the read timestamp only, inserts, updates and deletes succeed under the conditions above and show the caller the result, other records stay, a commit installs what the caller saw under its id, and after a commit or abort nothing is locked by the caller |
| GraphCalls.CommitMeans | src/storage/graph_db.cpp:217-366 | after a commit call every object the caller had locked holds what the caller saw, unlocked and dated with its id, or is deleted at its id |
| Csr.EncodeRows | src/analytics/graph_db_analytics.cpp:59-136 | encoding rows as offsets, columns and values yields well-formed arrays whose rows are those rows |
| Csr.DecodeEncode | src/analytics/graph_db_analytics.cpp:59-136 | well-formed arrays are the encoding of their rows |
| Csr.Patch | src/analytics/graph_db_analytics.cpp:447-575 | the patched arrays are well formed, and row by row the delta of the node, else the old row, else empty |
| Csr.PatchRows | src/analytics/graph_db_analytics.cpp:447-575 | the three loops of the patch build the encoding of the overridden rows |
| Csr.PatchBounds | src/analytics/graph_db_analytics.cpp:258-268 | the offsets that the patch reads exist if and only if the old arrays have a row |
| CsrDelta.MergeRecords | src/storage/csr_delta.cpp:79-262 | the merged deltas are, node by node, the last record that the snapshot considers; there are none exactly if every record is newer, or older than the last update and merged; afterwards every record up to the snapshot is merged, and they are cleared exactly if none is newer |
| CsrDelta.MergeKeeps | src/storage/csr_delta.cpp:79-262 | overriding rows by the merged deltas brings the arrays from the last update to the snapshot |
| CsrDelta.BuildDone | src/analytics/graph_db_analytics.cpp:109-136 | after a full build the arrays are the adjacency read, and the records still needed are kept |
| CsrStore.DeltaStore.StoreDelta | src/storage/csr_delta.cpp:62-76 | storing a delta appends it to the shared vectors and leaves the cached arrays valid |
| CsrStore.DeltaStore.UpdateWithDelta | src/analytics/graph_db_analytics.cpp:218-575 | the first update builds, an older snapshot is refused, and otherwise every row of the cached arrays is the latest stored delta visible to the snapshot, else the row of the build; the source returns without filling the caller's arrays if and only if every kept record is newer, or older than the last update and merged; rows are never lost |
| CsrRuns.Perform | src/analytics/graph_db_analytics.cpp:218-575 | a store or an update after any past calls, in each case exactly: refused, unfilled, or filled with the rows that the past prescribes for the snapshot; the cached arrays have these rows after every update not refused |
| CsrRuns.PerformAll | src/analytics/graph_db_analytics.cpp:218-575 | over any interleaving of stores and updates, every answer by comparing ids of past calls: the first update fills; a later one is refused exactly if its id is below that of the last fill, and leaves its caller's arrays unfilled exactly if that fill has settled every delta up to its id; otherwise it yields the rows of its snapshot |
| CsrRuns.AllExplained | src/storage/csr_delta.cpp:79-262 | the proof of the condition: a delta is settled by a fill after it that is newer, or has the same id if some update up to that fill met no newer delta |
| CsrRuns.RowThenMeans | src/storage/csr_delta.cpp:79-262 | the row of a node at a snapshot is that of its last delta with an id up to the snapshot which the build has not read, else that of the build |
| CsrRuns.RepeatedUpdateFills | src/storage/csr_delta.cpp:88-99 | an update at the id of the last fill fills again if a delta of that id was stored before and every update since met a newer one |
| CsrRuns.TakenTwice | src/storage/csr_delta.cpp:88-99 | a run in which two updates for 5 both fill, since the delta of 9 keeps that of 5 in the store |
| CsrRuns.RefusedAfterLater | src/analytics/graph_db_analytics.cpp:235-240 | an update is refused only after an update for a later transaction |
| CsrRuns.SecondUpdateUnfilled | src/analytics/graph_db_analytics.cpp:250-257 | after any calls, the second of two accepted updates with no store between them leaves its caller's arrays unfilled, if no delta is newer than the first |
| CsrRuns.TwoUpdates | src/analytics/graph_db_analytics.cpp:250-257 | the shortest such run: a build for 1 and an update for 2 |
| CsrRuns.TrackedRows | src/storage/csr_delta.cpp:79-262 | the records a store has kept give the same rows as the list of all deltas ever stored |
| PbTree.RootLookup | src/btree/pbtree.hpp:288-300 | a lookup in the tree finds exactly what its entries hold |
| PbInsert.InsertRootOk | src/btree/pbtree.hpp:254-279 | insertion keeps order, separators, fill and uniform depth, and puts the pair into the entries |
| PbErase.EraseRootOk | src/btree/pbtree.hpp:308-321 | deletion keeps order, separators, minimum fill and uniform depth, and removes exactly the key |
| PbErase.RepairKeeps | src/btree/pbtree.hpp:449-500 | borrowing from or merging with a sibling leaves good children with the same entries, one key fewer at most |
| PbMap.RunRefinesMap | src/btree/pbtree.hpp:254-321 | after every sequence of insertions and deletions of stored keys, every lookup agrees with a map |
| PbMap.RunIndex | src/btree/pbtree.hpp:254-321 | the same for the linked nodes in the node table |
| PbMap.ModelMeans | src/btree/pbtree.hpp:254-321 | in that map a key has the value inserted last, or none if it was erased since |
| PbRawLeaf.ShiftDown | src/btree/pbtree.hpp:422-437 | the shifting loop of a deletion in a leaf |
| PbRawLeaf.EraseRawExact | src/btree/pbtree.hpp:422-437 | for every leaf and every key, stored or absent, a deletion does what it promises if and only if the search does not end at a stale slot; it leaves the arrays exactly if the leaf is then full or empty, and otherwise drops the last key |
| PbRawLeaf.EraseStored | src/btree/pbtree.hpp:422-437 | a stored key is always deleted correctly |
| PbRawLeaf.SecondEraseLosesAKey | src/btree/pbtree.hpp:422-437 | a leaf in which deleting 5 a second time loses key 1 |
| PbRawLeaf.SecondEraseLeavesTheArrays | src/btree/pbtree.hpp:422-437 | a leaf with the only key 5 in which deleting 5 a second time runs behind the arrays |
| BPlusTree.Index.InsertPair | src/btree/pbtree.hpp:254-279 | insertion into linked nodes, with splits up to a new root: the stored pairs become the old ones with the pair put |
| BPlusTree.Index.EraseKey | src/btree/pbtree.hpp:308-321 | deletion of a stored key from linked nodes, with borrowing, merging and a shrinking root: exactly that key goes |
| BPlusTree.Index.LookUp | src/btree/pbtree.hpp:288-300 | the lookup on nodes returns the stored value, or nothing |
| BPlusTree.Index.Scan | src/btree/pbtree.hpp:374-393 | the walk along the leaf links from the leaf of the lower bound yields exactly the stored pairs in the range |
| PoolScan.InRangeExact | src/btree/pbtree.hpp:374-393 | that list is ascending and holds an entry if and only if it is stored and in the range |
| LeafChain.SplitKeepsLinks | src/btree/pbtree.hpp:947-981 | linking a new right sibling keeps `next` and `prev` threading exactly the leaves in order |
| LeafChain.MergeKeepsLinks | src/btree/pbtree.hpp:509-535 | so does unlinking a merged leaf |
| FpSelect.Partition | src/btree/fptree.hpp:121-133 | the range is permuted, with smaller or equal elements in front of the pivot and larger ones behind |
| FpSelect.ElementOfRank | src/btree/fptree.hpp:92-111 | the in-place median-of-medians selection returns an element of rank k of the range and permutes nothing else |
| FpSelect.FindSplitKey | src/btree/fptree.hpp:138-150 | for a full leaf the bitmap marks the (M + 1) / 2 smallest keys, and the split position holds the smallest of the others |
| FpLeaf.Position | src/btree/fptree.hpp:930-941 | comparing keys only where the fingerprint matches finds the slot of a key if and only if it is stored |
| FpLeaf.MinKeyPos | src/btree/fptree.hpp:159-170 | the position found is that of a smallest key if and only if some key is below the largest 64-bit value or slot 0 is in use |
| FpLeaf.SplitLeaf | src/btree/fptree.hpp:733-787 | a full leaf is cut at a stored key into two leaves that are not empty; the right one is a copy at a new address |
| FpLeaf.InsertLeaf | src/btree/fptree.hpp:686-724 | one leaf or two between the bounds hold the old pairs and the new one; a key that falls between the halves becomes the separator |
| FpTree.LookupIsList | src/btree/fptree.hpp:532-542 | a lookup through the branch nodes finds exactly what the list of leaves holds |
| FpTree.RecoveryInsertOk | src/btree/fptree.hpp:1395-1441 | appending a leaf at the right edge keeps a good tree with the leaves in order |
| FpTree.Recover | src/btree/fptree.hpp:568-601 | the recovered tree is well formed and has exactly the given leaves |
| FpInsert.InsertInto | src/btree/fptree.hpp:826-870 | insertion below a branch node keeps the tree good, rewrites one leaf of the list or replaces it by two, and stores the pair |
| FpInsert.Insert | src/btree/fptree.hpp:499-523 | the whole insertion: every lookup afterwards agrees with the map update |
| FpIndex.Index.Insert | src/btree/fptree.hpp:499-523 | the persistent leaves, their links and the branch nodes after an insertion store the map with the new pair |
| FpIndex.Index.WalkLeaves | src/btree/fptree.hpp:568-601 | following `next` from the first leaf visits exactly the leaves, in key order |
| FpIndex.Index.Recover | src/btree/fptree.hpp:568-601 | from the persistent part alone, whatever the volatile part holds, recovery yields a valid index with the same content |
| FpIndex.PerformAll | src/btree/fptree.hpp:499-601 | for every sequence of insertions, lookups and losses of the branch nodes, every lookup answers what a map would |
| FpIndex.LookupsFindLatest | src/btree/fptree.hpp:499-601 | that is, the value put last for the key, or nothing if there is none |
| RobinHood.ProbeReaches | src/robin_hood.h:1419-1446 | every slot between the home and the slot of a key has an info byte at least as large as the one the search has reached there |
| RobinHood.AbsentFrom | src/robin_hood.h:1419-1446 | once a search has passed the info byte of a slot, the key is in no later slot |
| RobinHood.RunEnds | src/robin_hood.h:2146-2155 | the run of used slots from a home on ends before the buffer behind the homes does |
| RobinHood.InsertKeeps | src/robin_hood.h:2347-2390 | shifting up and putting a key where its search landed keeps the layout and stores the pair |
| RobinHood.EraseKeeps | src/robin_hood.h:1396-1415 | shifting down over an erased slot keeps the layout and removes exactly that key |
| RobinHood.HalvingKeeps | src/robin_hood.h:2399-2425 | dropping one hash bit from every info byte keeps the layout |
| RobinHood.WordHalves | src/robin_hood.h:2412-2419 | shifting a word of eight bytes and masking it halves every byte |
| RobinHoodTable.Table.Find | src/robin_hood.h:1419-1446 | the unrolled search finds a key if and only if it is stored |
| RobinHoodTable.Table.Insert | src/robin_hood.h:2260-2396 | the table becomes the map with the pair, or keeps the value found; it never fails with at most 126 keys, nor while its keys have no layout with a full byte; it loses keys only with 128 or more, and fails only for an absent key |
| RobinHoodTable.Table.Erase | src/robin_hood.h:2050-2068 | exactly the key is removed, and the answer says whether it was stored |
| RobinHoodTable.Table.TryIncreaseInfo | src/robin_hood.h:2399-2425 | the content stays, and the step is refused exactly at the smallest increment |
| RobinHoodTable.Table.Rehash | src/robin_hood.h:2209-2249 | all pairs move to the new arrays, or only with 128 keys or more a part of them |
| RobinHoodTable.Table.IncreaseSize | src/robin_hood.h:2428-2456 | with at most 126 keys each call brings the table strictly closer to taking one more |
| RobinHoodTable.PerformAll | src/robin_hood.h:1831-1880 | for every sequence of calls on a table of any size and any hash function: each call answers and acts as on a map, or reports an overflow, which takes 127 keys, happens only in an insertion of a new key or a resize, and changes nothing below 128 keys |
| RobinHoodTable.MapUntilFailure | src/robin_hood.h:1831-1880 | up to the first overflow that is reported, content and answers are those of a map |
| RobinHoodTable.SmallNeverFails | src/robin_hood.h:1831-1880 | no call fails as long as no call meets more than 126 keys |
| RobinHoodTable.LookupsFindLatest | src/robin_hood.h:1831-1880 | a lookup of such a map answers the value last assigned, the value first put after a removal, and nothing after a removal alone |
| RobinHoodTable.ConstantHashOverflows | src/robin_hood.h:2347-2396 | if all keys have the same hash, 127 of them go in and the next insertion overflows, at every load factor |
| RobinHoodTable.RehashLoses | src/robin_hood.h:2209-2249 | a rehash of 128 keys or more to a multiplier that sends them to one home loses keys |
| RobinHoodLoss.InsertLoses | src/robin_hood.h:2428-2456 | at every load factor: insertions that all succeed bring a table to 128 keys, and the next insertion loses some of them |
| RobinHoodLoss.NotYetCrowded | src/robin_hood.h:2371-2377 | with 126 keys at one home and one at another, no byte is full in any layout |
| RobinHoodLimits.CrowdedIsLong | src/robin_hood.h:2371-2377 | a full byte at the smallest increment takes a run of 127 keys |
| RobinHoodLimits.OneHomeLimit | src/robin_hood.h:2371-2377 | one home has room for 127 keys, whatever the size of the table |
| ShortestPath.WeightedShortestPath | src/analytics/shortest_path.cpp:150-207 | a path over accepted relationships that leave each node or, in a bidirectional search, enter it is found if and only if there is one; it has the weight reported, and none is lighter |
| ShortestPath.PathBound | src/analytics/shortest_path.cpp:150-207 | every path to a node is at least as long as the weight of that node or of some node still to be visited |
| ShortestPath.PathMeans | src/analytics/shortest_path.cpp:185-204 | the nodes of a path are the start and the ends of its steps, and each step leads from one to the next |
| ShortestPath.TracePath | src/analytics/shortest_path.hpp:32-39 | following the parents yields the nodes of a real path of the weight computed |
| LruList.List.Remove | src/bp_file/lru_list.cpp:70-77 | unlinking a node leaves the rest of the chain linked in order |
| LruList.List.MoveToMru | src/bp_file/lru_list.cpp:42-53 | the node goes to the most recently used end and the others keep their order |
| BufferPool.Pool.FetchPage | src/bp_file/bufferpool.cpp:92-116 | the slot returned holds the current content of the page; no page changes content; at most one page leaves, the least recently fetched one that is not pinned; it fails exactly if the page is absent and every slot holds a pinned page |
| BufferPool.Pool.EvictPage | src/bp_file/bufferpool.cpp:212-238 | the victim is the least recently fetched page that is not pinned; it fails exactly if all are pinned |
| BufferPool.Pool.Write | src/bp_file/bufferpool.cpp:142-148 | a write changes the content of one page only |
| BufferPool.Pool.FlushPage | src/bp_file/bufferpool.cpp:180-197 | the page is clean or gone afterwards, with all contents kept |
| BufferPool.Pool.FlushAll | src/bp_file/bufferpool.cpp:150-164 | afterwards the file holds the content of every page |
| BufferPool.EvictKeeps | src/bp_file/bufferpool.cpp:212-238 | writing back and dropping a page keeps the pool consistent and every content |
| BufferPool.PerformAll | src/bp_file/bufferpool.cpp:92-197 | for every sequence of fetches, writes, pins and flushes, every fetch finds what was last written to its page, and hits, misses and failures are those of a cache that gives up the least recently fetched unpinned page |
| BufferPool.FetchFails | src/bp_file/bufferpool.cpp:92-116 | in that cache a fetch fails exactly if the page is absent and all slots hold pinned pages |
| BufferPool.FetchKeepsOrder | src/bp_file/bufferpool.cpp:92-116 | and otherwise only the page fetched, or the first page not pinned if a slot is needed, leaves its place in the order |
| BufferPool.FetchesFindLatest | src/bp_file/bufferpool.cpp:92-148 | a fetch that does not fail finds what was last written to its page, else what the file held at first |
| RshipChains.OwnedExact | src/storage/graph_db_import.cpp:156-188 | the outgoing list of a node is exactly the live relationships with it as source, the incoming list those with it as destination, each once, newest first |
| RshipChains.Graph.ImportRelationship | src/storage/graph_db_import.cpp:156-188 | a new relationship goes to the head of both chains, and all chains stay exact |
| RshipChains.Graph.RemoveRelationship | src/storage/graph_db_gc.cpp:29-82 | unlinking a relationship anywhere in its two chains keeps all chains exact |
| RshipChains.Graph.List | src/storage/graph_db_import.cpp:156-188 | the walk along a chain yields exactly the live relationships of the node |
| RshipChains.PerformAll | src/storage/graph_db_import.cpp:156-188 | after any sequence of imports and removals every list is exactly the live relationships of its node, newest first |
| RshipChains.LiveMeans | src/storage/graph_db_import.cpp:156-188 | the live relationships of a run are exactly those imported and not removed since, with the ends they were imported with |
| PropertyChains.PropertyTable.AddItems | src/storage/properties.hpp:278-298 | the records of the chain hold the items, in the least number of records, and no other record changes |
| PropertyChains.PropertyTable.UpdateItems | src/storage/properties.hpp:556-594 | the chain is reused record by record and extended in front; it then holds exactly the items |
| PropertyChains.PropertyTable.Update | src/storage/properties.hpp:556-594 | after an update by distinct keys the chain stores for every key updated the new value, for every other key what it stored, and nothing else |
| PropertyChains.PropertyTable.PropertyValue | src/storage/properties.hpp:387-402 | the lookup in a chain returns the stored value if and only if there is one |
| PropertyChains.ApplyUpdates | src/storage/properties.hpp:675-695 | merging updates into a property list: every updated key gets its new value, all others keep theirs, no other key appears |
| PropertyChains.OthersStore | src/storage/properties.hpp:556-594 | a new chain of one owner, of its old and new records, is disjoint from the chains of all other owners, which store what they did |
| PropertyChains.PerformAll | src/storage/properties.hpp:278-594 | for every sequence of additions and updates for any owners, the chains of all owners stay pairwise disjoint and every read finds the latest value of its owner |
| PropertyChains.ReadsFindLatest | src/storage/properties.hpp:278-594 | that is, the value given by the last list that names the property of that owner, or nothing if none does |

## Findings

Places where the code does less than one would expect, each with the exact condition or a
concrete input:

- **Deleting an own insert or update** (`src/storage/graph_db.cpp:1173-1227`). The delete then goes
  through the transaction's own copy and pushes an unlocked old version of it. Of an inserted
  object this version is visible, before any commit, to exactly the transactions with a smaller id
  (`MvtoOwnDelete.OwnDeleteVisible`), and still after a commit (`OwnDeleteCommitted`); after an
  abort the record stays in the table and everybody sees the insert (`OwnDeleteAborted`, and the
  run in `AbortedInsertComesBack`). Of an updated object nobody sees anything wrong, but the own
  copy stays locked in the list after the commit, and vacuum never removes the record
  (`OwnDeleteStays`). The theorems about runs hold for deletes of objects the transaction has not
  written before.
- **Robin Hood overflow.** The table is meant to hold any number of keys, but an info byte has
  room for a distance of 126. `RobinHoodTable.Table.Insert` never fails with at most 126 keys,
  and that bound is sharp: `ConstantHashOverflows` puts in 127 keys of equal hash and then sees
  an overflow. An overflow inside a rehash leaves only part of the keys; this takes at least 128
  keys, and `RobinHoodLoss.InsertLoses` brings a table there: 127 keys at one home and one at
  another use up all hash bits of a table that is not half full, and the next insertion rehashes
  with the next multiplier, under which all keys share a home.
- **Deleting an absent key from the B+-tree** (`src/btree/pbtree.hpp:422-437`). The position is
  compared with the key without checking that it is below the number of keys, and old keys stay
  in their slots. `PbRawLeaf.EraseRawExact` gives the exact condition under which a deletion is
  correct, for every leaf. `SecondEraseLosesAKey` is an input where a second deletion of 5 loses
  key 1; `SecondEraseLeavesTheArrays` is one where 5 was the only key, the bound of the shift
  wraps around and the loop runs behind the arrays. The run theorems are therefore about deletions
  of keys stored at that moment.
- **Patching a CSR without rows** (`src/analytics/graph_db_analytics.cpp:258-268`). The last node
  id is the number of offsets minus two, which wraps around when the old arrays have no row;
  `Csr.PatchBounds` shows that the reads are in bounds if and only if there is a row.
- **`findMinKeyPos` and the largest key** (`src/btree/fptree.hpp:159-170`). It starts from the
  largest key value and so overlooks that key; `FpLeaf.MinKeyPos` states exactly when its answer
  is right. The tree is modelled for keys below that value.
- **Nothing to update** (`src/analytics/graph_db_analytics.cpp:250-257`). If no record is to be
  merged the source returns without filling the caller's arrays, although the cached ones are up
  to date. `CsrStore.DeltaStore.UpdateWithDelta` and `CsrRuns.PerformAll` say exactly when, and
  `SecondUpdateUnfilled` that two updates with no store between them are such a run, if no delta
  is newer than the first; `TwoUpdates` is the shortest.
- **The error after an abort** (`src/storage/graph_db.cpp:607-657`). An aborted update or delete
  leaves the unlocked copy of the old version in the list. The content that anybody sees is that
  of the snapshot (`MvtoAbort.AbortIsInvisible`), but a transaction that did not know the object
  meets that copy and is told to abort unless it finds it valid.
  `MvtoErrors.AbortedWriteKeepsKind` states this for every first write and abort, in both
  directions; `AbortedUpdateMakesAbort` is an input.

## Left out

- The relationship side of transactions, secondary indexes, the write-ahead log and `detach_delete_node`: nodes and relationships follow the same protocol.
- Interleaving inside one database call: a call on one object is one atomic step, as the code takes a lock or reads under one; commit and abort are broken into one step per object.
- A delete after an own write of the same object is not a step of the system: after an own insert it breaks isolation, after an own update it does not but leaves a locked version behind for ever; `MvtoOwnDelete` says exactly what it does in either case.
- Whether a node is orphaned before a delete is a parameter, and transaction ids are strictly increasing inputs.
- Reuse of the slots of removed records: object ids are never used again.
- MvtoSerial.ReadsAreSerial: reads of objects the transaction has itself written are not in its history; `OwnerReadsOwnWrite` covers them state by state.
- The `delta_mode_` switch, the maximum number of delta records, the second delta format and the parallel build of the CSR; weights are real numbers, not floats.
- The traversal that reads the adjacency for a full build is a parameter of the build.
- Nodes of the B+-tree are sequences in a node table and not arrays in persistent memory: fixed-size arrays, padding, transactions of the memory library and a crash in the middle of an operation are not modelled. The leaf deletion alone is also modelled on the raw slots (`PbRawLeaf`).
- Deletion in the fingerprinting tree, and a crash in the middle of an insertion; its branch nodes are tree values.
- Overflow of machine integers in table sizes, the branch of `calcMaxNumElementsAllowed` for huge tables, the memory pool and move semantics of the hash table; exceptions are outcomes.
- The other path searches (unweighted, all, k shortest), the visitor of the path search and hop counts.
- `free_page`, `purge` and `scan_file` of the buffer pool; file ids are part of the page id, and a client's write and `mark_dirty` are one step.
- Relationship chains inside transactions: the model is about records with no open version, as in an import and in vacuum.
- The dictionary: strings are codes. Types of property values are not distinguished.
- Query compilation, the query engine, the Python interface, accelerators and parsing: they lie outside the storage core.
