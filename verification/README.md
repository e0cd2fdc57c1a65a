# RaftKV: a verified model

The repository is a replicated key-value store: a Raft node, the application next to it, a skip list as the
index of the store, the framing of its remote calls, and a three-tier memory pool. This project models these
parts in Dafny and proves what they are for. `dafny verify dfyconfig.toml` checks all of it.

**Memory pool.** `Pages` is the page cache as a value: spans of pages keyed by first page, and the 128-page
chunks from the system. `PageCache` is the page cache as it is written, with span objects, 128 lists and the two
boundary maps, proved against `Pages` with the bookkeeping facts of `SpanIndex`. `Size` holds the size classes,
`Slabs` the spans cut into blocks, `Stock` where every block is. `Pool` puts the three caches together as a state
machine: a step is a stretch of code that runs without releasing a lock, so a run is any interleaving of the
threads at lock release points. `PoolSafety` proves that every step keeps the invariant, `PoolRuns` what that
means over whole runs. `FreeLists` is the intrusive list in block memory with the loops of the thread cache and
the central cache, `SpanLists` the circular doubly linked list of spans. What `FreeLists` proves about a loop is
what `Pool` does in one step (`PoolRuns.FetchedBatch` and `PoolRuns.FreedBlock` say it in the same words).

**Raft.** `Election` is a cluster of any size whose packets may be lost or reordered and whose nodes may crash.
`Journals` is one node's log with its indices, `Pipeline` a node with its state machine, the two queues between
them, snapshots, and crashes at any point, `PipelineRuns` what that means over whole runs, `Replays` when a store
can catch up with a log, `Quorum` the commit rule, `Replication` what one exchange between leader and follower
leaves in both. `RaftNode` is the node as it is written, a class whose handlers are proved to change ballot and log
exactly as the functions of `Election` and `Journals` say and to keep the disk in step with memory. `Commands` is
the text of the commands and what they do to the store, `ClerkApp` the application.

**Store and wire.** `SkipLists` is the skip list with its linked levels, `KVStores` the store over it, `Crc32` the
table-driven checksum, `Framing` the receive loop.

## What the proofs found

- A winner of an election forgets its vote (Raft.cpp:251), so two nodes can lead in one term. `TwoLeadersHappen` is
  such a run with three nodes; `TwoWinners` shows that a term never has three winners, and `OneLeader` that a term
  has one winner exactly if no winning vote of it comes from a node that has won it before.
- When an append request disagrees with the log inside its range, the log is cut but its last index is not changed,
  and the lookup for the log message then throws outside any handler (Raft.cpp:442-448). So the process ends before
  the cut is persisted and finds the whole log again (`MismatchIsFatal`, `AppendRequestSteps`).
- A leader that sends again before the first answer, as two writes in a row make it do, has the entries added to the
  follower's log a second time (Raft.cpp:455-466). `TwoWritesRepeat` is such an exchange, `RepeatedAgreesIff` says when
  the logs still agree.
- A response handler of a leader may set the commit index back (Raft.cpp:548), as a late answer lowers a match entry.
  Entries are then applied twice (`LoweredCommitRepeats`), or the process ends (`LoweredCommitKills`). `InOrderIff`,
  `OnceIff` and `StepFailsIff` give the exact conditions; `Recovered` holds all the same.
- A read of a missing key stores an empty value and makes a later put of that key disappear (`GetKeepsIff`,
  `PutAfterGetIff`).
- The receive loop gives up a call at a packet it cannot serve and leaves the packets behind it in the buffer.
  `CutsNeverMatterIff` says exactly when that makes the cutting of the stream visible.
- Command text is only read back as the same command if key and value are non-empty and without spaces
  (`TextRoundTrip`).

## Model

| member | source | states |
|---|---|---|
| `Pages.FetchWellFormed` | raftkv/memory-pool/caches/src/PageCache.cpp:45-144 | fetching from any source leaves free and busy spans as an exact partition of the pages obtained from the system |
| `Pages.FetchHandsOut` | raftkv/memory-pool/caches/src/PageCache.cpp:45-144 | a fetch makes exactly one new busy span of the requested size and leaves every other busy span alone |
| `Pages.FetchBestFit` | raftkv/memory-pool/caches/src/PageCache.cpp:50-98 | if some free span has the pages, they are the last ones of a smallest such span, and no chunk is asked for |
| `Pages.ReturnWellFormed` | raftkv/memory-pool/caches/src/PageCache.cpp:146-213 | giving a span back conserves every page |
| `Pages.GatherMore` | raftkv/memory-pool/caches/src/PageCache.cpp:156-205 | one merge with a neighbour keeps the result the union of the returned span and free spans around it |
| `Pages.NeighboursFitOneChunk` | raftkv/memory-pool/caches/src/PageCache.cpp:146-213 | if chunks do not touch, two neighbouring spans never have more than 128 pages together |
| `Pages.FetchCoalesced` | raftkv/memory-pool/caches/src/PageCache.cpp:45-144 | if chunks do not touch, fetching never leaves two free spans side by side |
| `Pages.ReturnCoalesced` | raftkv/memory-pool/caches/src/PageCache.cpp:146-213 | if chunks do not touch, giving back never leaves two free spans side by side |
| `Pages.AllReturned` | raftkv/memory-pool/caches/src/PageCache.cpp:146-213 | with nothing handed out, every chunk is again one free span of 128 pages |
| `Pages.SomeSource` | raftkv/memory-pool/caches/src/PageCache.cpp:50-101 | if the system grants a chunk, a span can always be fetched |
| `Pages.GatherAll` | raftkv/memory-pool/caches/src/PageCache.cpp:155-205 | merging comes to an end, with a result to which no further free neighbour can be joined within 128 pages |
| `PageCache.PageCache.FetchSpan` | raftkv/memory-pool/caches/src/PageCache.cpp:45-144 | the method fetches exactly as the table says, from an exact fit, a smallest larger span or a new chunk in this order, and keeps lists and maps exact; null only if there is no chunk |
| `PageCache.PageCache.TakeSplit` | raftkv/memory-pool/caches/src/PageCache.cpp:67-98 | splitting keeps the front part and both maps exact, also when a part has one page |
| `PageCache.PageCache.MergePrev` | raftkv/memory-pool/caches/src/PageCache.cpp:154-179 | the first loop ends, and no free span in front fits any more |
| `PageCache.PageCache.MergeNext` | raftkv/memory-pool/caches/src/PageCache.cpp:181-205 | the second loop ends; the bound in front survives it |
| `PageCache.PageCache.ReturnSpan` | raftkv/memory-pool/caches/src/PageCache.cpp:146-213 | the span is merged with free neighbours as far as 128 pages allow, maximal on both sides; all pages, lists and maps stay exact |
| `PageCache.PageCache.ObjectToSpan` | raftkv/memory-pool/caches/src/PageCache.cpp:215-237 | from first and last pages alone: the busy span that contains the address, and null exactly if there is none |
| `SpanLists.SpanList.PushFront` | raftkv/memory-pool/common/src/SpanList.cpp:160-167 | the circle stays closed in both directions with the span in front |
| `SpanLists.SpanList.Erase` | raftkv/memory-pool/common/src/SpanList.cpp:176-182 | exactly that span leaves the list, the order of the others stays |
| `SpanLists.SpanList.PopFront` | raftkv/memory-pool/common/src/SpanList.cpp:169-174 | exactly the first span leaves the list |
| `SpanLists.SpanList.Empty` | raftkv/memory-pool/common/src/SpanList.cpp:184-187 | the head points at itself exactly if the list has no span |
| `SpanLists.SpanList.Front` | raftkv/memory-pool/common/src/SpanList.cpp:140-143 | the first span, found through the head |
| `SpanLists.SpanList.Back` | raftkv/memory-pool/common/src/SpanList.cpp:145-148 | the last span, found through the head |
| `Size.ClassFits` | raftkv/memory-pool/common/src/Size.cpp:6-70 | rounding, class and block size agree: the class of the rounded size is the class of the request and its blocks have the rounded size |
| `Size.ClassOfRequest` | raftkv/memory-pool/common/src/Size.cpp:29-70 | a request gets the class with the smallest blocks that hold it, for all 208 classes |
| `Size.IndexRoundTrip` | raftkv/memory-pool/common/src/Size.cpp:6-50 | class to size to class is the identity |
| `Size.WasteBounded` | raftkv/memory-pool/common/src/Size.cpp:6-70 | rounding wastes at most seven bytes or less than an eighth of the request, and gives a multiple of eight |
| `Slabs.SlotInside` | raftkv/memory-pool/caches/src/CentralCache.cpp:138-151 | every block carved lies inside its span |
| `Slabs.SlotsApart` | raftkv/memory-pool/caches/src/CentralCache.cpp:138-151 | carved blocks do not overlap |
| `Slabs.BlockCountPositive` | raftkv/memory-pool/caches/src/CentralCache.cpp:118-142 | a span fetched for any class yields at least one block |
| `Slabs.PagesForSmallest` | raftkv/memory-pool/caches/src/CentralCache.cpp:118-131 | a class asks for the fewest pages that hold 512 blocks, or for 128 if fewer do not |
| `Slabs.BlocksFill` | raftkv/memory-pool/caches/src/CentralCache.cpp:143-144 | a span is carved into as many blocks as fit |
| `FreeLists.FreeList.PushFront` | raftkv/memory-pool/common/src/FreeList.cpp:76-81 | the chain through block memory starts with the new block and then the old ones |
| `FreeLists.FreeList.PopFront` | raftkv/memory-pool/common/src/FreeList.cpp:83-88 | the chain loses its first block |
| `FreeLists.Carve` | raftkv/memory-pool/caches/src/CentralCache.cpp:138-151 | the loop leaves exactly the slots of the span on its free list, last slot first |
| `FreeLists.FetchBatch` | raftkv/memory-pool/caches/src/CentralCache.cpp:36-51 | the loop takes the asked number of blocks or all there are, reverses them into a chain and counts them as used |
| `FreeLists.GiveBack` | raftkv/memory-pool/caches/src/CentralCache.cpp:80-88 | the block is in front of the free list and the use count one less; at zero the list is emptied |
| `FreeLists.Receive` | raftkv/memory-pool/caches/src/ThreadCache.cpp:102-112 | the loop moves a whole chain in front of the thread's list, reversed, and raises the maximum |
| `FreeLists.TakeChain` | raftkv/memory-pool/caches/src/ThreadCache.cpp:115-126 | the loop unlinks the front blocks into a chain, reversed, and leaves the others |
| `FreeLists.AllocateFrom` | raftkv/memory-pool/caches/src/ThreadCache.cpp:30-55 | the block handed out is the first of the span; the rest of the batch is cached in the span's order |
| `FreeLists.Deallocate` | raftkv/memory-pool/caches/src/ThreadCache.cpp:57-91 | the block is cached; at twice the maximum the front maximum of blocks leave as a chain; no link outside the list and the block changes |
| `Stock.MoveLocated` | raftkv/memory-pool/caches/src/CentralCache.cpp:37-46 | a moved block is in exactly one place, and no other block moves |
| `Stock.MoveManyLists` | raftkv/memory-pool/caches/src/CentralCache.cpp:36-51 | moving blocks one by one reverses them in front of the target list |
| `PoolSafety.LookupFindsHome` | raftkv/memory-pool/caches/src/PageCache.cpp:215-237 | for every carved block, the span found by address is exactly the one it was carved from |
| `PoolSafety.LookupNeverMisses` | raftkv/memory-pool/caches/src/CentralCache.cpp:74-78 | the branch that skips a block without a span is never taken |
| `PoolSafety.FreshAddresses` | raftkv/memory-pool/caches/src/CentralCache.cpp:138-151 | carving a span never meets an address that is already a block |
| `PoolSafety.AllocateHitKeeps` | raftkv/memory-pool/caches/src/ThreadCache.cpp:51-54 | the invariant, when a cached block is handed out |
| `PoolSafety.ReceiveKeeps` | raftkv/memory-pool/caches/src/ThreadCache.cpp:99-112 | the invariant, when a batch arrives and one block of it is handed out |
| `PoolSafety.DeallocateKeeps` | raftkv/memory-pool/caches/src/ThreadCache.cpp:57-91 | the invariant, when a block is freed, with and without a return to the central cache |
| `PoolSafety.FlushKeeps` | raftkv/memory-pool/caches/src/ThreadCache.cpp:13-21 | the invariant, when a list of a thread is given back as a whole |
| `PoolSafety.TakeBlocksKeeps` | raftkv/memory-pool/caches/src/CentralCache.cpp:21-54 | the invariant, when a batch is taken from a span |
| `PoolSafety.FetchPagesKeeps` | raftkv/memory-pool/caches/src/CentralCache.cpp:114-136 | the invariant, when a span is fetched with the lock released |
| `PoolSafety.CarveKeeps` | raftkv/memory-pool/caches/src/CentralCache.cpp:138-157 | the invariant, when the span is carved, listed and used |
| `PoolSafety.GiveBackKeeps` | raftkv/memory-pool/caches/src/CentralCache.cpp:80-88 | the invariant, when a block goes back to its span, the last one or not |
| `PoolSafety.ReturnPagesKeeps` | raftkv/memory-pool/caches/src/CentralCache.cpp:90-94 | the invariant, when an emptied span goes back to the page cache |
| `PoolSafety.StepKeepsInv` | raftkv/memory-pool/caches/src/CentralCache.cpp:21-158 | the invariant, for every step of every thread |
| `PoolRuns.LiveBlocksDisjoint` | raftkv/memory-pool/caches/src/ThreadCache.cpp:30-128 | in every state of every interleaving, blocks in use are pairwise disjoint, at least as long as requested and inside a busy span |
| `PoolRuns.OnePlaceEach` | raftkv/memory-pool/caches/src/CentralCache.cpp:21-158 | in every state of every interleaving, each carved block is in exactly one list once, or in use |
| `PoolRuns.UsedIsOutside` | raftkv/memory-pool/caches/src/CentralCache.cpp:43-82 | the use count of a span is the number of its blocks outside its free list, and at least one |
| `PoolRuns.LeavesWhenLast` | raftkv/memory-pool/caches/src/CentralCache.cpp:83-94 | a span leaves the central cache exactly when the block given back was its last one out |
| `PoolRuns.CacheBounds` | raftkv/memory-pool/caches/src/ThreadCache.cpp:57-128 | in every run 1 <= max_size <= 513, a list holds fewer than twice max_size blocks, and a request is for at most 512 |
| `PoolRuns.MaxSizeGrows` | raftkv/memory-pool/caches/src/ThreadCache.cpp:93-113 | max_size never falls |
| `PoolRuns.FetchedBatch` | raftkv/memory-pool/caches/src/ThreadCache.cpp:46-54 | an allocation with an empty cache asks for the list's maximum but at most 512 blocks, hands out the front block of the chosen span, caches the rest in order, and raises the maximum to one more than it asked for |
| `PoolRuns.FreedBlock` | raftkv/memory-pool/caches/src/ThreadCache.cpp:70-80 | which blocks stay and which leave, in which order, when a block is freed |
| `PoolRuns.Drain` | raftkv/memory-pool/caches/src/CentralCache.cpp:83-94 | once all is freed and flushed no span is busy, and if chunks do not touch each is one free span of 128 pages, whatever the history |
| `PoolRuns.Progress` | raftkv/memory-pool/caches/src/CentralCache.cpp:21-158 | a thread inside a call always has a next step |
| `PoolRuns.CallBounded` | raftkv/memory-pool/caches/src/CentralCache.cpp:21-158 | whatever other threads do, a call ends after a bounded number of its own steps: four for an allocation, three for each block and one more for a return |
| `SkipLists.SkipList.FindWithUpdate` | raftkv/kvstore/include/SkipList.h:674-691 | the search ends at the position of the key, with the last node before it on every level |
| `SkipLists.SkipList.Find` | raftkv/kvstore/include/SkipList.h:644-666 | a node with the map's value exactly if the key is in the map |
| `SkipLists.SkipList.CreateAndInsert` | raftkv/kvstore/include/SkipList.h:699-727 | for every random height all levels, the current level and the size stay exact, and one entry is added to the map |
| `SkipLists.SkipList.Insert` | raftkv/kvstore/include/SkipList.h:735-750 | inserts exactly if the key is not there |
| `SkipLists.SkipList.GetOrInsert` | raftkv/kvstore/include/SkipList.h:758-768 | the node of the key, made with the default value if it was not there |
| `SkipLists.SkipList.EraseKey` | raftkv/kvstore/include/SkipList.h:517-549 | removes exactly the key's node from all levels and the map, and says whether it was there |
| `SkipLists.SkipList.EraseAt` | raftkv/kvstore/include/SkipList.h:463-510 | removes exactly that node from all levels and the map, and gives the node behind it |
| `SkipLists.SkipList.LowerLevel` | raftkv/kvstore/include/SkipList.h:500-503 | the current level ends as the highest level with a node on it, or 0 |
| `SkipLists.SkipList.Clear` | raftkv/kvstore/include/SkipList.h:420-436 | destroys every node once and leaves an empty list with null heads |
| `SkipLists.SkipList.Walk` | raftkv/kvstore/include/SkipList.h:350-353 | iteration meets every node once in key order |
| `SkipLists.InsertedLevel` | raftkv/kvstore/include/SkipList.h:716-722 | relinking behind the recorded nodes links each level exactly as the new list of nodes asks |
| `SkipLists.RemovedLevel` | raftkv/kvstore/include/SkipList.h:528-536 | bypassing the node links each level exactly as the remaining list of nodes asks |
| `SkipLists.StructureDetermined` | raftkv/kvstore/include/SkipList.h:463-549 | the nodes in order determine every link and the current level |
| `SkipLists.ErasesAgree` | raftkv/kvstore/include/SkipList.h:463-549 | erasing a key and erasing its position leave the same list |
| `KVStores.KVStore.DoPut` | raftkv/kvstore/include/KVStore.h:66-70 | put sets a missing key and leaves a present one, as the put command does |
| `KVStores.KVStore.DoUpdate` | raftkv/kvstore/include/KVStore.h:78-82 | update sets the key to the value whether it was there or not, as the update command does |
| `KVStores.KVStore.DoRemove` | raftkv/kvstore/include/KVStore.h:89-93 | remove takes exactly the key away, as the delete command does |
| `KVStores.KVStore.DoGet` | raftkv/kvstore/include/KVStore.h:55-58 | get stores a default value for a missing key |
| `Crc32.StepBijective` | raftkv/raft-rpc/src/RaftRpcCRC32.cpp:31-33 | a step of the register can be undone, on all 32-bit values |
| `Crc32.StepsLinear` | raftkv/raft-rpc/src/RaftRpcCRC32.cpp:31-33 | steps distribute over exclusive or |
| `Crc32.FeedByte` | raftkv/raft-rpc/src/RaftRpcCRC32.cpp:22 | feeding the eight bits of a byte is mixing it in and stepping eight times |
| `Crc32.Table.constructor` | raftkv/raft-rpc/src/RaftRpcCRC32.cpp:27-36 | every table entry is its index stepped eight times |
| `Crc32.Table.Crc32` | raftkv/raft-rpc/src/RaftRpcCRC32.cpp:17-25 | the table loop gives the bit-serial checksum of section 8 of RFC 1952 for messages of every length |
| `Crc32.FeedAllIsBits` | raftkv/raft-rpc/src/RaftRpcCRC32.cpp:17-25 | byte by byte is bit by bit |
| `Crc32.BurstDetected` | raftkv/raft-rpc/src/RaftRpcCRC32.cpp:17-36 | equally long messages that differ, only within 32 consecutive bits at any bit position, have different checksums |
| `Framing.HeaderRecognised` | raftkv/raft-rpc/src/RaftRpcDispatcher.cpp:194-207 | an encoded header is read back with magic number, checksum and length |
| `Framing.HeaderDamaged` | raftkv/raft-rpc/src/RaftRpcDispatcher.cpp:76-102 | a header with damage to any one of its four words is never taken for a packet; damage to the magic number loses all that has arrived, other damage exactly the header |
| `Framing.LengthDamaged` | raftkv/raft-rpc/src/RaftRpcFixedHeader.cpp:11-22 | the checksum covers the length: a header with any other length is dropped and nothing is cut at it |
| `Framing.DamageCosts` | raftkv/raft-rpc/src/RaftRpcDispatcher.cpp:76-102 | packets in front of a damaged header still arrive; what follows it is kept unless the magic number is damaged |
| `Framing.Receiver.OnMessage` | raftkv/raft-rpc/src/RaftRpcDispatcher.cpp:76-177 | the loop delivers and keeps exactly what the recursive definition of the framing says, in every error case |
| `Framing.ReceiveStream` | raftkv/raft-rpc/src/RaftRpcDispatcher.cpp:76-177 | one call takes all packets up to and including the first it cannot serve |
| `Framing.ChunksDeliver` | raftkv/raft-rpc/src/RaftRpcDispatcher.cpp:76-177 | for every cut of a packet stream nothing is lost, invented or reordered |
| `Framing.StreamReassembled` | raftkv/raft-rpc/src/RaftRpcDispatcher.cpp:76-177 | packets that can all be served arrive exactly as sent for every cut, and only the unfinished tail stays |
| `Framing.CutsNeverMatterIff` | raftkv/raft-rpc/src/RaftRpcDispatcher.cpp:125-139 | every cut delivers all servable packets exactly if none follows one that cannot be served |
| `Election.StepKeepsInv` | raftkv/raft-core/src/Raft.cpp:205-406 | the election invariant, for every step of every cluster |
| `Election.TermsNeverFall` | raftkv/raft-core/src/Raft.cpp:205-244 | no node's term ever falls, over crashes and restarts |
| `Election.NextWin` | raftkv/raft-core/src/Raft.cpp:396-405 | a later winner of a term has the vote the first winner cast after its own win |
| `Election.TwoWinners` | raftkv/raft-core/src/Raft.cpp:246-269 | of two winners of a term one voted for the other after winning, and there is no third |
| `Election.OneLeader` | raftkv/raft-core/src/Raft.cpp:314-406 | over every run, a term has at most one winner exactly if no win in it counted the vote of a node that had already won it |
| `Election.SecondWinIff` | raftkv/raft-core/src/Raft.cpp:396-405 | a win is not the first of its term exactly if the votes counted for it include one of a node that has won the term |
| `Election.OneLeaderIfQuiet` | raftkv/raft-core/src/Raft.cpp:314-406 | at most one winner per term in every run where no winner votes again in its term |
| `Election.TwoLeaders` | raftkv/raft-core/src/Raft.cpp:246-269 | two nodes lead in one term only if one voted for the other after winning |
| `Election.TwoLeadersHappen` | raftkv/raft-core/src/Raft.cpp:251 | a run of three nodes that ends with two leaders of term 1 |
| `Election.MajoritiesMeet` | raftkv/raft-core/src/Raft.cpp:400 | two majorities of one cluster share a node |
| `RaftNode.Raft.BecomeCandidate` | raftkv/raft-core/src/Raft.cpp:216-244 | a new term with the node's own vote, persisted, then requests to the peers |
| `RaftNode.Raft.BecomeLeader` | raftkv/raft-core/src/Raft.cpp:246-269 | vote and count reset and persisted with the whole log, peers reset, heartbeats sent; it never crashes |
| `RaftNode.EveryoneAsked` | raftkv/raft-core/src/Raft.cpp:224-240 | the requests go to exactly the other peers |
| `RaftNode.Raft.SendAppendEntries` | raftkv/raft-core/src/Raft.cpp:271-312 | for each other peer a heartbeat, its missing entries or a snapshot offer; it never crashes with indices in step |
| `RaftNode.SyncNeverFails` | raftkv/raft-core/src/Raft.cpp:271-312 | with indices in step no lookup of a broadcast fails |
| `RaftNode.SyncReaches` | raftkv/raft-core/src/Raft.cpp:271-312 | a broadcast is exactly one message for each other peer |
| `RaftNode.Raft.HandleRequestVoteRequest` | raftkv/raft-core/src/Raft.cpp:314-370 | ballot and answer are those of the election model; a vote is granted exactly for a term not older, if it is free in that term and the candidate's last entry has a newer term than the voter's, or the same and no smaller index; the disk holds term, vote and log in memory |
| `RaftNode.Raft.HandleRequestVoteResponse` | raftkv/raft-core/src/Raft.cpp:372-406 | a candidate leads exactly with a strict majority and gives up for a newer term, as in the election model; the disk holds what is in memory, and it never crashes |
| `RaftNode.Raft.HandleAppendEntriesRequest` | raftkv/raft-core/src/Raft.cpp:408-481 | ballot, log, batch and answer are those of the log model; a success answers the index at which the log ends; it crashes exactly where the log model fails, and in any case the disk holds the log with the accepted entries |
| `RaftNode.Raft.HandleAppendEntriesResponse` | raftkv/raft-core/src/Raft.cpp:483-556 | the peer's entry and then the majority's commit, as in the log model; the disk holds what is in memory, crash or not |
| `RaftNode.Raft.CommitMajority` | raftkv/raft-core/src/Raft.cpp:535-555 | commits the middle of the sorted match table if it is of the current term |
| `RaftNode.Raft.HandleKVOperation` | raftkv/raft-core/src/Raft.cpp:727-795 | a leader logs, persists and sends the text of the operation, letter for letter, and passes a read on; others redirect; it never crashes |
| `RaftNode.Raft.ApplyCommitLogs` | raftkv/raft-core/src/Raft.cpp:797-816 | hands over exactly the committed entries behind the applied index, unless a batch is under way |
| `RaftNode.Raft.CheckIfNeedSnapshot` | raftkv/raft-core/src/Raft.cpp:838-856 | asks for a snapshot at the applied index from three entries on, one at a time; it never crashes with indices in step |
| `RaftNode.Raft.HandleApplyCommitLogs` | raftkv/raft-core/src/Raft.cpp:657-666 | the applied index is the reported one, and a snapshot may be asked for; it never crashes and keeps disk and memory in step |
| `RaftNode.Raft.HandleGenerateSnapshot` | raftkv/raft-core/src/Raft.cpp:668-692 | the log is cut behind the snapshot and persisted, at every index the log can be cut at; a failed one changes nothing; it never crashes |
| `RaftNode.Raft.Persist` | raftkv/raft-core/src/Raft.cpp:959-997 | the file holds term, vote, remaining log and snapshot label |
| `RaftNode.Raft.LoadPersist` | raftkv/raft-core/src/Raft.cpp:999-1037 | term, vote and log as persisted, commit and applied at the snapshot label, disk and memory in step |
| `Journals.AlignedNeverFails` | raftkv/raft-core/src/Raft.cpp:869-957 | with indices in step no lookup throws |
| `Journals.SnapshotInvisible` | raftkv/raft-core/src/Raft.cpp:668-692 | a snapshot leaves term lookup, match and entries unchanged at every index they still cover |
| `Journals.LoadRestores` | raftkv/raft-core/src/Raft.cpp:959-1037 | loading what was persisted gives the same term and command at every index |
| `Journals.WriteIsAppend` | raftkv/raft-core/src/Raft.cpp:777-786 | counting the last index up agrees with counting the entries |
| `Journals.NewnessOrders` | raftkv/raft-core/src/Raft.cpp:884-893 | comparing logs is reflexive, total and transitive |
| `Journals.EquallyNewIff` | raftkv/raft-core/src/Raft.cpp:884-893 | two logs are each at least as new as the other exactly if they end at the same index with the same term |
| `Journals.NewerByTermThenIndex` | raftkv/raft-core/src/Raft.cpp:884-893 | the term of the last entry decides, the index only between equal terms |
| `Journals.AppendedIsNewer` | raftkv/raft-core/src/Raft.cpp:455-467 | adding entries of no older term makes a log newer |
| `Journals.CutKeepsFront` | raftkv/raft-core/src/Raft.cpp:442-445 | cutting a log keeps exactly the entries in front of the cut |
| `Journals.SnapshotSettled` | raftkv/raft-core/src/Raft.cpp:668-692 | a snapshot keeps the term of the last entry known |
| `Journals.MismatchIsFatal` | raftkv/raft-core/src/Raft.cpp:441-449 | exactly when an append request ends the process, in terms of the indices, and that otherwise it only adds entries |
| `Journals.ApplyFailsIff` | raftkv/raft-core/src/Raft.cpp:797-816 | exactly when handing over a batch ends the process |
| `Journals.MajorityFailsIff` | raftkv/raft-core/src/Raft.cpp:535-555 | exactly when a leader's commit ends the process |
| `Replication.SyncCarries` | raftkv/raft-core/src/Raft.cpp:293-306 | a request to a peer within the log carries exactly the entries from its next index on, and the index and term of the entry before; a heartbeat carries none |
| `Replication.SyncOutside` | raftkv/raft-core/src/Raft.cpp:279-306 | a peer behind the snapshot is offered it; one beyond the log gets no entries |
| `Replication.AcceptedIff` | raftkv/raft-core/src/Raft.cpp:441-449 | a follower takes entries exactly if it has the entry in front of them with its term |
| `Replication.EntriesArrive` | raftkv/raft-core/src/Raft.cpp:441-480 | a follower that stands where the leader thinks has the leader's log after a success, and commits no more than the leader |
| `Replication.RepeatedAgreesIff` | raftkv/raft-core/src/Raft.cpp:455-467 | entries sent again are added again; the logs then agree exactly if the leader's entries repeat at that distance |
| `Replication.TwoWritesRepeat` | raftkv/raft-core/src/Raft.cpp:455-467 | two writes before the first answer leave the first entry twice in the follower's log |
| `Replication.MatchIsHeld` | raftkv/raft-core/src/Raft.cpp:476-480 | the index a success answers, and the leader records, is where the follower's log ends |
| `Replication.HeldForGood` | raftkv/raft-core/src/Raft.cpp:408-481 | the last index of a log never falls |
| `Replication.CommittedIsHeld` | raftkv/raft-core/src/Raft.cpp:535-548 | what a leader commits is held by a strict majority of the logs, if match entries are held |
| `Replication.ResetStartsOver` | raftkv/raft-core/src/Raft.cpp:255-265 | a new leader asks every peer about its own last entry and counts only itself as holding anything |
| `Replication.RejectionsReachStart` | raftkv/raft-core/src/Raft.cpp:519-528 | each rejection goes one entry back, until the whole log is offered behind index 0, which no follower rejects |
| `Quorum.MajorityHolds` | raftkv/raft-core/src/Raft.cpp:535-544 | for every cluster size, a positive index is held by a strict majority exactly if it is at most the middle value |
| `Quorum.MajorityGrows` | raftkv/raft-core/src/Raft.cpp:535-544 | the middle value never falls when entries grow |
| `Pipeline.StepKeepsInv` | raftkv/raft-core/src/Raft.cpp:657-692 | the invariant of log, store, file and queues, for every step including crashes and any commit index a handler can set |
| `PipelineRuns.InOrderIff` | raftkv/raft-core/src/Raft.cpp:797-816 | in every run, the store gets the entries one after the other, each once, up to the reported index, exactly if the commit index is never set back behind the applied one while no batch is under way |
| `PipelineRuns.OnceIff` | raftkv/raft-core/src/Raft.cpp:797-816 | in every run, no entry goes to the store twice between restarts exactly if no non-empty batch is handed over while the applied index is behind the last entry that went there |
| `PipelineRuns.AppliedInOrder` | raftkv/raft-core/src/Raft.cpp:797-816 | as long as the commit index is not lowered: consecutive entries, each once; one batch at a time; the applied index never ahead of the store nor behind the snapshot; the node lives |
| `PipelineRuns.StepFailsIff` | raftkv/raft-core/src/Raft.cpp:869-957 | a step ends the process exactly if it hands over a batch that begins with an entry only the snapshot holds |
| `PipelineRuns.LogStaysWhole` | raftkv/raft-core/src/Raft.cpp:869-957 | while the process lives, base and last index fit, and every entry behind the snapshot is the one logged, on disk too |
| `PipelineRuns.SnapshotsNewEnough` | raftkv/raft-core/src/Raft.cpp:828-836 | as long as the commit index is not lowered, every snapshot file is the store at its label or at a later index |
| `PipelineRuns.AlwaysCatchesUp` | raftkv/raft-app/src/RaftClerk.cpp:697-729 | in every state of every run, replaying the log on the store, or on the snapshot file from its label, ends as the whole log does |
| `Replays.BatchGood` | raftkv/raft-app/src/RaftClerk.cpp:467-566 | a batch keeps a store able to catch up with the log from every index it could before and from every index inside the batch |
| `PipelineRuns.Recovered` | raftkv/raft-core/src/Raft.cpp:999-1037 | after any crashes and whatever the commit index has done, once the furthest index is reported again, the store is the fold of the whole log up to it |
| `PipelineRuns.RecoveredCommitted` | raftkv/raft-core/src/Raft.cpp:999-1037 | the same for everything that had been committed |
| `PipelineRuns.AppendRequestSteps` | raftkv/raft-core/src/Raft.cpp:441-480 | the append handler is an addition and a commit of the model, changes nothing, or crashes, with the exact condition of each |
| `PipelineRuns.MajoritySteps` | raftkv/raft-core/src/Raft.cpp:535-555 | the response handler is a commit of the model to any majority of its term, higher or lower, and crashes exactly where that step does |
| `PipelineRuns.LoweredCommitRepeats` | raftkv/raft-core/src/Raft.cpp:535-551 | a run from the start in which the response handler sets the commit index back and an entry reaches the store twice |
| `PipelineRuns.LoweredCommitKills` | raftkv/raft-core/src/Raft.cpp:535-551 | a run from the start in which a lowered commit index and a snapshot taken before end the process |
| `Commands.RunAgain` | raftkv/raft-app/src/RaftClerk.cpp:492-540 | commands run out of order and again end in the same store, if both orders did before |
| `Commands.TextRoundTrip` | raftkv/raft-core/src/Raft.cpp:757-778 | a command is read back from its text exactly if key and value are non-empty and free of spaces |
| `Commands.LastUpdateWins` | raftkv/kvstore/include/KVStore.h:78-82 | if the last command about a key is an update, the key ends with its value, whatever it was |
| `Commands.LastDeleteWins` | raftkv/kvstore/include/KVStore.h:89-93 | if it is a delete, the key is gone |
| `Commands.FirstPutWins` | raftkv/kvstore/include/KVStore.h:66-70 | the first put of a missing key gives it its value, and later puts do not change it |
| `Replays.LastUpdateStays` | raftkv/raft-app/src/RaftClerk.cpp:505-519 | if the last entry about a key is the text of an update, replaying ends with its value |
| `Commands.RunTwice` | raftkv/raft-app/src/RaftClerk.cpp:492-540 | every sequence of put, update and delete is idempotent on every store |
| `Commands.GetKeepsIff` | raftkv/kvstore/include/KVStore.h:55-58 | a read leaves the store alone exactly if the key is there |
| `Commands.PutAfterGetIff` | raftkv/kvstore/include/KVStore.h:55-58 | a put after a read does what it would have done without it exactly if the key was there or the value is empty |
| `ClerkApp.Clerk.ApplyEntry` | raftkv/raft-app/src/RaftClerk.cpp:487-540 | the text of a put sets a missing key and fails on a present one, that of an update always sets, that of a delete removes; anything else changes nothing and has no status |
| `ClerkApp.Clerk.ApplyCommitLogs` | raftkv/raft-app/src/RaftClerk.cpp:467-566 | the batch is replayed in order on the store, each waiting client gets its status, then the report |
| `ClerkApp.WaitingAnswered` | raftkv/raft-app/src/RaftClerk.cpp:543-558 | exactly the clients with an id and a sequence number are answered, with the status on the store before their entry |
| `ClerkApp.Clerk.GenerateSnapshot` | raftkv/raft-app/src/RaftClerk.cpp:650-694 | the file lists every pair of the store once, in key order; without a file the node hears of a failure |
| `ClerkApp.Clerk.InstallSnapshotFromPersist` | raftkv/raft-app/src/RaftClerk.cpp:715-725 | the pairs of the file are set one by one |
| `ClerkApp.SnapshotRoundTrip` | raftkv/raft-app/src/RaftClerk.cpp:650-725 | a snapshot loaded into an empty store gives the store it was taken from |
| `ClerkApp.Clerk.HandleRead` | raftkv/raft-app/src/RaftClerk.cpp:434-446 | found with its value exactly if there is a non-empty one; a read of a missing key leaves an empty value behind |

## Left out

- Log matching, leader completeness and agreement across nodes: the append handler adds entries without removing a conflicting tail (Raft.cpp:455-466), so these do not hold of the code. `Replication` has what holds of one exchange.
- Snapshots sent by a leader (Raft.cpp:558-655, 694-725; RaftClerk.cpp:568-639): they do not re-establish the index invariants. Their effect on elections is covered by the step to a higher term.
- The recovery results are about runs without reads: a read of a missing key changes the store behind the log's back (`GetKeepsIff`).
- Elections abstract from the logs: whether a candidate's log is new enough is any truth value at each request. Reads, writes and append traffic can only raise a node's term.
- Timers, threads of one node, sequence numbers, unique ids, routing and closures: a timeout may happen at any time, a handler is one step, and a response reaches its requester at most once.
- Protobuf encoding of messages, persisted data and snapshots: values stand for their encodings. Whether a packet names a registered method with a payload that can be parsed is a parameter of the receive loop.
- Requests of 0 bytes and of more than 262144 bytes bypass the pool (ThreadCache.cpp:32-39, 59-67) and are not part of it.
- The system always grants a chunk to the pool state machine, aligned and disjoint from all earlier ones; `PageCache.PageCache.FetchSpan` has the case without a chunk. Static destruction order is not modelled.
- PageCache.PageCache.ReturnSpan: the 128 lists of the page cache are sequences of span objects there, not SpanLists objects, so the pointer surgery of the lists is proved separately.
- A block is freed with the size it was requested with, by any thread.
- Pool.TakeBlocks picks any span of the class that has free blocks; the source takes the first in its list. Any thread cache may be flushed whenever its thread is idle; the source does it when the thread ends.
- The pool state machine holds values, because a thread may be stopped between any two lock releases; its loops are proved in memory in FreeLists. `returnRange` as a whole is its steps in the machine, not one method.
- SkipLists.SkipList.CreateAndInsert: the height is a parameter between 1 and the maximum; the source draws it at random below the maximum. Destroyed nodes are dropped from the list, not deallocated.
- Library sorting is an insertion sort with the order and counts it must have (`Quorum.SortSorts`).
- The header checksum is computed over host byte order, taken as little-endian.
- Logger, sinks, example programs, command line, and forwarding members without logic of their own.
