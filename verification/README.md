# Shared-memory containers and JSON: a Dafny model

The repository's core library keeps hash maps, buffers and queues in shared memory. One process
writes, others read without locks, and a process may die in the middle of an operation. This project
models these containers and the JSON reader and writer that ship with them, and proves what they are
for:

- **Link table** (`LinkRep`, `LinkOps`, `LinkTable`): values are chains of fixed-size nodes. Every node
  is in one chain or on the free list, handles carry a tag that tells a new chain from an old one, and
  HealthCheck repairs whatever a crash leaves.
- **Hash table and hash map** (`Geometry`, `Cells`, `HashTable`, `MapRep`, `HashMap`): rows with prime
  moduli; the map over a hash table of handles and a link table of values.
- **The map under concurrency and crashes** (`MapWriter`, `MapReader`, their `Proof` modules, `MapRuns`,
  `MapMisses`, `MapFinds`, `MapEnds`, `MapCrash`, `Trails`): the writer as single stores, keys and values byte
  by byte, the reader as single loads, interleaved in any way; the writer may die before any store, and so may
  a repair. `MapCalls`, `MapStale` and `MapTorn` build the runs in which a read goes wrong.
- **Queue** (`QueueRep`, `Queue`, `QueueRuns`, `QueueProof`, `QueueProgress`): one producer, one consumer, no
  lock; at call granularity and as single stores and loads.
- **Sync buffer** (`SyncRep`, `SyncBuf`): a ring of nodes that overwrites the oldest, with an index by
  sequence number and a search by time.
- **JSON** (`JsonText`, `JsonTree`, `JsonScan`, `JsonGrammar`, `JsonSound`, `JsonRound`, `JsonWriter`,
  `JsonReader`): FastWriter and Reader on bytes, and what a document says: `JsonTree` defines, byte by byte and
  blanks included, when a text spells a value.

Classes such as `ShmLinkTable` have the fields of the source's shared segments and methods that change
them. Ghost fields hold what the memory stands for (chains, map contents, messages). The modules `MapWriter`,
`MapReader` and `QueueRuns` describe the same operations as steps on values, since what matters there
is every point between two stores; `MapCrash.SameMemory` ties the steps to the class.
`dafny verify dfyconfig.toml` checks the whole project.

## Properties that hold only on a condition

- **Values that are read.** A read that finds the same handle twice returns the value that the map holds,
  unless the handle's 31-bit tag was drawn again between the two loads (`MapRuns.FindIsLinearizable`). The
  condition is exact: whatever draw made the handle, whatever draws happen before and after the load of
  the handle, and whichever of them repeats the tag, there is a run from a new segment in which Find
  returns a value that the map no longer holds (`MapStale.ReissuedTagMisleads`). The number of stores
  during the read is no bound: with an old handle a single one is enough (`MapStale.OneNewMisleads`). A
  handle of which fewer than 2^31 - 1 draws have passed since its own is safe
  (`MapRuns.YoungIsNotReissued`), and this bound is tight (`Tags.TagReturns`).
- **Keys that are missed.** A Find that returns false for a key which is in the map during the whole call
  has lost 64 rounds to the writer, or met a repeated tag, or ended at the cell of another key in which it had
  met each byte of its own key at one moment or another (`MapMisses.FindMissesOnlyAbsent`,
  `MapFinds.MissIsExplained`). If no cell changes and no tag is drawn meanwhile, Find is exact
  (`MapFinds.RestingFindIsExact`). The last case is real for keys that take more than one load: a search loads
  the bytes of a key before the handle of its cell, and if the key of the cell is replaced in between, the
  bytes can be those of a third key (`MapTorn.TornKeyMisses`).
- **Search by time.** The middle of two sequence numbers is computed in 64 bits. It lies between them
  exactly if their sum fits (`SyncBuf.MiddleExact`). Sequence numbers start at the creation time shifted
  by 32 bits, so from January 2038 on the sum of any two does not fit. If a buffer holds two or more
  messages, the sum of the last two sequence numbers does not fit, and no node that the index leads to is
  late, then the search for a later time never ends (`SyncBuf.ShmSyncBuf.SearchNeverEnds`); so it is for
  every segment created in 2038 or later that holds two messages (`SyncBuf.SearchLoops`). If the sums fit,
  the search is exact (`SyncBuf.ShmSyncBuf.FindByTime`).
- **Room in the queue.** A push is refused exactly if neither the place behind the tail nor, if the ring has not
  wrapped, the place before the head has room at the moment when Prepare looks (`QueueProgress.PrepExact`);
  otherwise its message arrives (`QueueProgress.PushIsDelivered`).
- **JSON strings.** A value survives writing and reading exactly if no string in it has a NUL
  (`JsonText.CutSame`, `JsonReader.RoundTrip`).

## Where the code differs from its comments

The model follows the code.

- `Travel` counts cells, used or not, against `max_travel_nodes`; the comment speaks of nodes visited.
- `GetPrimeArray` takes 1 for a prime. Row sizes below 2 are never used, so the rows are not affected.
- The size guard of `ShmSyncBuf::InitForWrite` joins its two tests by `&&`, so it refuses nothing. The
  model's constructor asks for the range that the two tests describe.
- `ShmSyncBuf::Read` reports the number of bytes copied when a buffer is given; the comment promises the
  node's size.
- `ShmSyncBuf::Push` accepts a node that leaves exactly the overwrite band free, but then drops
  messages until it fails, since one byte of the ring is never used; `SyncBuf.ShmSyncBuf.Push` says exactly when.
- `ZeroCopyPushCommit` compares a descriptor at the start of the ring with the end flag and with
  `head_pos` only, so a descriptor that Prepare did not return can be accepted. Nothing is promised for it.
- `ShmHashMap::HealthCheck` clears its statistics after the link table's part has been filled in.

## Model

| member | source | states |
|---|---|---|
| MapWriterProof.AdvanceOk | src/lib_bsp/shmc/shm_hash_map.h:334-360 | every single store of an insert, replace or erase, with the New and Free inside, keeps the invariant and disturbs no published value |
| MapWriterProof.BeginOk | src/lib_bsp/shmc/shm_hash_map.h:334-348 | a call is refused exactly if the key is present and may not be replaced, or absent with no empty probe, or the value is empty, too long or needs more nodes than are free; a refusal stores nothing |
| MapWriterProof.InvInBounds | src/lib_bsp/shmc/shm_link_table.h:321-330 | the asserted index range holds at every store of the writer |
| MapReaderProof.RAdvanceOk | src/lib_bsp/shmc/shm_hash_map.h:366-395 | every load keeps the reader's invariant: what it has copied so far is the value of its handle, or the cell has got a younger handle since |
| MapReaderProof.CalmKeepsReader | src/lib_bsp/shmc/shm_hash_map.h:366-378 | no store of the writer breaks that invariant, wherever the reader is |
| MapMisses.FineStep | src/lib_bsp/shmc/shm_link_table.h:493-549 | a round whose cell keeps its handle never fails to read, at no load |
| MapReaderProof.RInvInBounds | src/lib_bsp/shmc/shm_link_table.h:493-547 | the reader follows no link and copies no byte outside the table, however stale its handle is |
| MapReaderProof.ReaderTerminates | src/lib_bsp/shmc/shm_hash_map.h:382-395 | every load brings the reader nearer to its end, whatever the writer does in between, so it ends after finitely many |
| MapRuns.AlwaysInBounds | src/lib_bsp/shmc/shm_link_table.h:484-566 | in every interleaving from a new segment, with crashes and repairs, the next store and the next load are in bounds |
| MapRuns.FindIsLinearizable | src/lib_bsp/shmc/shm_hash_map.h:363-396 | in every interleaving a successful Find returns what the map holds for the key at its second load of the handle, unless the tag was drawn again during the round |
| MapFinds.FoundIsCurrent | src/lib_bsp/shmc/shm_hash_map.h:382-395 | whatever load lets a whole Find return true, it is the second load of a handle, the key is the one asked for, and the value is what the map holds for it at that load, unless the tag was drawn again |
| MapFinds.MissIsExplained | src/lib_bsp/shmc/shm_hash_map.h:382-395 | a Find that misses a key which is in the map all the time lost exactly 64 rounds, each to a change of the handle, or met a repeated tag, or met every byte of the key, at one moment or another, in a used cell that is not the key's |
| MapFinds.RestingFindIsExact | src/lib_bsp/shmc/shm_hash_map.h:363-396 | if no cell changes and no tag is drawn during a Find, it returns true exactly for the keys that are in the map, with their values |
| MapFinds.MismatchIsRefused | src/lib_bsp/shmc/shm_link_table.h:493-547 | a tag that differs from the handle's, or a checksum that differs from that of the bytes, ends the round without success |
| MapRuns.RecheckIsExact | src/lib_bsp/shmc/shm_hash_map.h:388-394 | equal handles at both loads, with no repeated draw of the tag between, mean that key and bytes were read consistently |
| MapRuns.YoungIsNotReissued | src/lib_bsp/shmc/shm_link_table.h:279-282 | no tag is drawn again within 2^31 - 1 draws of its own, so young handles are safe |
| MapMisses.FindMissesOnlyAbsent | src/lib_bsp/shmc/shm_hash_map.h:382-395 | in every interleaving, with crashes and repairs, a Find that misses a key which is in the map all the time lost 64 rounds to the writer, met a repeated tag, or ended at another key's cell |
| MapTorn.TornKeyMisses | src/lib_bsp/shmc/shm_hash_map.h:284-287 | a run in which a key that is in the map all the time is missed in the first round, since the bytes of two other keys were taken for it |
| MapStale.ReissuedTagMisleads | src/lib_bsp/shmc/shm_hash_map.h:388-395 | for every draw of the handle, first draw after its load, repeated draw and last draw there is a run from a new segment in which Find returns a value that the map no longer holds |
| MapStale.OneNewMisleads | src/lib_bsp/shmc/shm_hash_map.h:394 | with an old handle there is such a run with a single New during the Find |
| MapEnds.WriterTerminates | src/lib_bsp/shmc/shm_hash_map.h:334-360 | every store of a call leaves less to do, for values of any number of nodes |
| MapEnds.PutEnds | src/lib_bsp/shmc/shm_hash_map.h:334-360 | an insert or replace, of a value of any length, runs to its end store by store; the map then has the value under the key exactly if the key was there and may be replaced, or was not there and a probe was empty, and the value is not empty and fits the free nodes |
| MapEnds.DelEnds | src/lib_bsp/shmc/shm_hash_map.h:433-445 | an erase runs to its end, and the map is without the key |
| MapEnds.IdleCountersExact | src/lib_bsp/shmc/shm_link_table.h:478-479 | between two calls of any run, also after crashes and repairs, the counters are the number of free nodes, of chains, and of their bytes |
| MapCalls.InsertCall | src/lib_bsp/shmc/shm_hash_map.h:345-358 | store by store, an insert of a one-node value ends, with the value in the node that was on top of the free list and the next tag |
| MapCalls.EraseCall | src/lib_bsp/shmc/shm_hash_map.h:438-444 | store by store, an erase of a one-node value ends, with its node on top of the free list |
| MapRuns.DeathOk | src/lib_bsp/shmc/shm_hash_map.h:349-358 | the writer may die before any store: the invariant of a dead writer's memory holds, and readers are not disturbed |
| MapRuns.RevivedOk | src/lib_bsp/shmc/shm_hash_map.h:204-209 | after a repair the writer can go on |
| MapRuns.MendedCalm | src/lib_bsp/shmc/shm_hash_map.h:204-209 | no store of a repair moves a published value, so reads in flight go on |
| MapCrash.CrashedState | src/lib_bsp/shmc/shm_hash_map.h:349-358 | wherever the writer dies, the memory represents a map with the contents before the last call or after it |
| MapCrash.Repair | src/lib_bsp/shmc/shm_hash_map.h:504-541 | HealthCheck on that memory gives a map with nothing leaked and the contents before or after the last call; its stores, one field at a time, continue the run, so readers may meet it half done, and whenever it is interrupted itself the memory again represents the old or new contents |
| Trails.TrailShrinks | src/lib_bsp/shmc/shm_link_table.h:664-746 | at every store of a repair every node is in one place, and the chains that are left at the end are there with the same bytes |
| MapCrash.ReturnedCallTookEffect | src/lib_bsp/shmc/shm_hash_map.h:334-360 | a call that has returned took effect if it was accepted and changed nothing otherwise |
| Tags.TagGap | src/lib_bsp/shmc/shm_link_table.h:279-282 | two draws of one tag are at least 2^31 - 1 draws apart, across the counter's wrap and the omitted 0 |
| Tags.TagReturns | src/lib_bsp/shmc/shm_link_table.h:280 | the distance is reached, across the wrap |
| LinkRep.BufNodesLeast | src/lib_bsp/shmc/shm_link_table.h:269-273 | buf_nodes is the least number of nodes that holds the header and the data |
| LinkRep.HeadFlagMarksChains | src/lib_bsp/shmc/shm_link_table.h:650-661 | the head flag marks exactly the first nodes of chains, so a traversal finds every chain once |
| LinkRep.PopFree | src/lib_bsp/shmc/shm_link_table.h:415-422 | taking the top of the free list keeps every node in exactly one place |
| LinkRep.PushFree | src/lib_bsp/shmc/shm_link_table.h:429-430 | putting a node on the free list keeps that too |
| LinkRep.StartChain | src/lib_bsp/shmc/shm_link_table.h:456-461 | a node that is in no chain and not free becomes a chain of its own by its head flag |
| LinkRep.ExtendChain | src/lib_bsp/shmc/shm_link_table.h:474-476 | the store of one link appends a node to its chain and to no other |
| LinkRep.DropChain | src/lib_bsp/shmc/shm_link_table.h:425-428 | clearing the tag of its first node dissolves a chain and leaves the others as they are |
| LinkTable.ShmLinkTable.constructor | src/lib_bsp/shmc/shm_link_table.h:353-369 | a new segment has every node on the free list and exact counters |
| LinkTable.ShmLinkTable.AllocNode | src/lib_bsp/shmc/shm_link_table.h:415-422 | takes the top of the free list, 0 exactly if it is empty |
| LinkTable.ShmLinkTable.FreeNode | src/lib_bsp/shmc/shm_link_table.h:425-432 | the node ends up on the free list, tag 0, every other node where it was |
| LinkTable.ShmLinkTable.TagSeq | src/lib_bsp/shmc/shm_link_table.h:279-282 | the counter goes up by one, from 2^32 - 1 to 1, and the tag is its lower 31 bits; after d draws they are those of draw d + 1 |
| LinkOps.StoredHeader | src/lib_bsp/shmc/shm_link_table.h:459-471 | a stored buffer's first node: the tag with the head flag, the length, the checksum of the first bytes, and these bytes, each at its place |
| LinkTable.ShmLinkTable.New | src/lib_bsp/shmc/shm_link_table.h:435-481 | succeeds exactly if the buffer is not empty, not too long and fits the free nodes; then a new chain holds its bytes under a fresh tag, other chains and counters stay exact; a refusal changes nothing |
| LinkTable.ShmLinkTable.Read | src/lib_bsp/shmc/shm_link_table.h:484-550 | succeeds exactly for handles that name an intact buffer; returns its size and its first bytes |
| LinkTable.ShmLinkTable.ReadString | src/lib_bsp/shmc/shm_link_table.h:553-566 | returns the whole buffer |
| LinkTable.ShmLinkTable.Free | src/lib_bsp/shmc/shm_link_table.h:569-599 | the nodes of the named chain, and no others, go to the free list, and the counters follow; any other handle is refused without a change; a handle with the head flag in its tag frees the first node only, and reports failure if there are others |
| LinkTable.ShmLinkTable.StoredIsRead | src/lib_bsp/shmc/shm_link_table.h:435-566 | what New stored is read back whole after any run of New and Free that does not free it |
| LinkTable.ShmLinkTable.FreedIsRefused | src/lib_bsp/shmc/shm_link_table.h:573-579 | after Free and any run of New and Free, Read and Free refuse the handle while fewer than 2^31 - 1 tags have been drawn since it was made |
| LinkOps.StaleHandleRefused | src/lib_bsp/shmc/shm_link_table.h:493-496 | a handle whose buffer is gone matches no head node within that window, even if the node is used again |
| LinkTable.ShmLinkTable.HealthCheck | src/lib_bsp/shmc/shm_link_table.h:664-746 | too short chains are released and leaked nodes recycled, all other chains keep nodes and bytes, counters become exact; a sound table is not changed; the statistics are the numbers of leaked nodes and of chains too short, cleared, and too long |
| Cells.FindOrAllocRefinesMap | src/lib_bsp/shmc/shm_hash_table.h:383-406 | over probe sequences the cells are a finite map: found exactly the stored keys, full exactly if every probe holds another key |
| HashTable.ShmHashTable.Find | src/lib_bsp/shmc/shm_hash_table.h:368-381 | found exactly if one of the cells at the key's hash code modulo the row's prime, one for each row, has a handle set and the key; the first of them |
| HashTable.ShmHashTable.FindSlot | src/lib_bsp/shmc/shm_hash_table.h:383-406 | the cell of the key, else the first empty one of those cells, else, exactly if all of them hold other keys, none |
| HashTable.ShmHashTable.ProbesSpread | src/lib_bsp/shmc/shm_hash_table.h:371-373 | two keys share a row's cell exactly if their hash codes agree modulo the row's prime, and each column of a row is the place of the keys whose code it is |
| HashTable.OrderAt | src/lib_bsp/shmc/shm_hash_table.h:474-486 | in the order of a traversal the cell of a row and column comes after the cells of the rows and columns before it |
| HashTable.ShmHashTable.Travel | src/lib_bsp/shmc/shm_hash_table.h:469-496 | visits the next `max` cells from the saved position, or the rest, and saves where it stopped |
| HashTable.ShmHashTable.TravelInChunks | src/lib_bsp/shmc/shm_hash_table.h:153-157 | for every chunk size, repeated calls visit every cell exactly once, in the order of one full call |
| HashTable.OrderDistinct | src/lib_bsp/shmc/shm_hash_table.h:474-486 | the order of a traversal has no cell twice and stays inside the node array |
| Geometry.IsPrime | src/lib_bsp/shmc/common_utils.h:151-158 | trial division up to a half finds every divisor |
| Geometry.GetPrimeArray | src/lib_bsp/shmc/common_utils.h:161-172 | the largest primes up to a bound, in falling order; fails exactly if there are too few |
| Geometry.CalcAllRows | src/lib_bsp/shmc/shm_hash_table.h:236-261 | each row has the size that the ratio gives, the largest prime in it as modulus, and starts where the one before ends |
| Geometry.SquareRoot | src/lib_bsp/shmc/shm_hash_table.h:197-204 | the integer square root |
| Geometry.TableRows | src/lib_bsp/shmc/shm_hash_table.h:267-281 | for every accepted capacity: the minimum of the possible rows and three times their square root, at least one; the nodes fit the plan and 32 bits, and are at least as many as the keys asked for |
| Geometry.PlannedUnique | src/lib_bsp/shmc/shm_hash_table.h:275-280 | the row count is determined by the first row's size |
| Geometry.AttachRows | src/lib_bsp/shmc/shm_hash_table.h:344-349 | a reader refuses exactly the heads whose rows do not exist or whose node count is not their sum |
| Geometry.CreateThenAttach | src/lib_bsp/shmc/shm_hash_table.h:344-349 | a reader accepts the head that the writer stored and gets the writer's rows |
| Geometry.RowsReproducible | src/lib_bsp/shmc/shm_hash_table.h:236-261 | the rows are determined by first size, ratio and count |
| Geometry.CellsDistinct | src/lib_bsp/shmc/shm_hash_table.h:194-196 | different rows and columns never share a cell, and every cell is inside the array |
| Geometry.RowsFit | src/lib_bsp/shmc/shm_hash_table.h:271-272 | the rows never take more than the planned allocation |
| HashMap.ShmHashMap.constructor | src/lib_bsp/shmc/shm_hash_map.h:309-320 | new segments make an empty map with a cell for each key asked for |
| HashMap.ShmHashMap.DoInsert | src/lib_bsp/shmc/shm_hash_map.h:334-360 | when exactly an insert or replace succeeds, in terms of the handles at the key's places in the rows and of the free bytes; the map then has the new value and no other change, the old chain is freed, and a refusal changes no memory |
| HashMap.ShmHashMap.DoRead | src/lib_bsp/shmc/shm_hash_map.h:363-396 | without a concurrent writer the value of the cell, exactly for its own key |
| HashMap.ShmHashMap.Find | src/lib_bsp/shmc/shm_hash_map.h:422-430 | finds exactly the present keys with their values |
| HashMap.ShmHashMap.Erase | src/lib_bsp/shmc/shm_hash_map.h:433-445 | removes the key and nothing else, and leaks no node |
| HashMap.ShmHashMap.TravelEraseIf | src/lib_bsp/shmc/shm_hash_map.h:484-501 | erases the selected entries among the visited cells and no others, though it changes the table while travelling |
| HashMap.ShmHashMap.EraseIf | src/lib_bsp/shmc/shm_hash_map.h:477-481 | one full traversal leaves exactly the entries that the predicate keeps |
| HashMap.ShmHashMap.EraseIfInChunks | src/lib_bsp/shmc/shm_hash_map.h:484-501 | traversals in chunks of any size leave the same map |
| HashMap.ShmHashMap.HealthCheck | src/lib_bsp/shmc/shm_hash_map.h:504-541 | repairs what a dead writer left: nothing stays leaked, every chain belongs to one cell, keys and values do not change; a map between calls is not touched |
| QueueProof.PoppedIsPrefixOfPushed | src/lib_bsp/shmc/shm_queue.h:296-339 | in every interleaving of loads and stores the popped messages are the first pushed ones, byte for byte |
| QueueProof.StoresAreSafe | src/lib_bsp/shmc/shm_queue.h:342-401 | the producer stores into no message that is not consumed, and not outside the buffer |
| QueueProof.ChecksNeverFail | src/lib_bsp/shmc/shm_queue.h:447-495 | no integrity check of either side fails, and the consumer's loads are in bounds |
| QueueProof.PositionsOk | src/lib_bsp/shmc/shm_queue.h:410-413 | positions stay aligned and in range, and the tail never gets back to 0 |
| QueueProof.HeldShowsOldest | src/lib_bsp/shmc/shm_queue.h:131-140 | a descriptor for reading shows the oldest message until it is committed, whatever the producer does |
| QueueProof.CommitIsAccepted | src/lib_bsp/shmc/shm_queue.h:403-445 | a descriptor from Prepare is accepted by Commit whatever the consumer did in between, with the bytes in its buffer |
| QueueProof.OnlyTailStorePushes | src/lib_bsp/shmc/shm_queue.h:389-401 | nothing of a push is visible before the store of the tail, which appends exactly one message |
| QueueProgress.NodeSizeLeast | src/lib_bsp/shmc/shm_queue.h:199-202 | a node takes the least multiple of 64 bytes that holds its head and the data |
| QueueProgress.PrepExact | src/lib_bsp/shmc/shm_queue.h:342-387 | in every run Prepare grants the place behind the tail if there is room, else, if the ring has not wrapped, the start if there is room before the head, and refuses in no other case |
| QueueProgress.PushIsDelivered | src/lib_bsp/shmc/shm_queue.h:296-305 | a Push that finds room adds its message within the producer's next steps, at most 9 and one for each byte, whatever the consumer does in between |
| QueueProgress.PrepareIsGranted | src/lib_bsp/shmc/shm_queue.h:342-387 | a Prepare that finds room hands out its buffer within four more steps |
| QueueProgress.CommitIsDelivered | src/lib_bsp/shmc/shm_queue.h:403-445 | a Commit of a prepared buffer adds the buffer's bytes within six steps |
| QueueProgress.EmptyHasRoom | src/lib_bsp/shmc/shm_queue.h:353-381 | once all messages are consumed there is room for every node shorter than half the ring |
| QueueProgress.LoadTailExact | src/lib_bsp/shmc/shm_queue.h:450-460 | a pop gives up exactly if every pushed message is consumed |
| QueueProgress.PopIsDelivered | src/lib_bsp/shmc/shm_queue.h:307-325 | a Pop that loads the tail while a message is left returns the oldest one within the consumer's next steps, 6 and one for each byte |
| QueueProgress.PopIsShown | src/lib_bsp/shmc/shm_queue.h:447-495 | a zero-copy pop hands out its descriptor in the same way |
| QueueProgress.ReleaseIsDelivered | src/lib_bsp/shmc/shm_queue.h:503-546 | the release of a descriptor takes the message it shows off the queue within five steps |
| QueueRep.FieldsOfNode | src/lib_bsp/shmc/shm_queue.h:389-396 | the bytes of a message in the ring: start tag, type, flags, length, data |
| QueueRep.EmptyTakesHalf | src/lib_bsp/shmc/shm_queue.h:353-381 | when exactly an empty queue takes a message; always if its node is shorter than half the ring |
| Queue.ShmQueue.constructor | src/lib_bsp/shmc/shm_queue.h:214-233 | a new queue is empty |
| Queue.ShmQueue.PushPrepare | src/lib_bsp/shmc/shm_queue.h:342-387 | finds room exactly behind the tail or, wrapped, before the head; the queue does not change and earlier descriptors remain good |
| Queue.ShmQueue.PushCommit | src/lib_bsp/shmc/shm_queue.h:403-445 | a prepared descriptor is accepted and its bytes become the last message; a refusal changes nothing |
| Queue.ShmQueue.Push | src/lib_bsp/shmc/shm_queue.h:296-305 | appends the message exactly if there is room |
| Queue.ShmQueue.PopPrepare | src/lib_bsp/shmc/shm_queue.h:447-495 | shows the first message exactly if there is one |
| Queue.ShmQueue.PopCommit | src/lib_bsp/shmc/shm_queue.h:503-546 | removes the first message; prepared pushes remain good |
| Queue.ShmQueue.Pop | src/lib_bsp/shmc/shm_queue.h:307-325 | removes and returns the first message exactly if it fits the caller's buffer |
| SyncBuf.ShmSyncBuf.constructor | src/lib_bsp/shmc/shm_sync_buf.h:395-413 | a new buffer is empty, its size rounded up |
| SyncBuf.ShmSyncBuf.Push | src/lib_bsp/shmc/shm_sync_buf.h:447-514 | appends the message under the next sequence number and drops the fewest old ones that make room; when exactly it fails; only bytes outside the overwrite band change, at every store |
| SyncBuf.ShmSyncBuf.Walk | src/lib_bsp/shmc/shm_sync_buf.h:517-551 | Next from Head visits exactly the live nodes, oldest first, and ends at Tail |
| SyncBuf.ShmSyncBuf.Next | src/lib_bsp/shmc/shm_sync_buf.h:529-551 | from a live node to the following one, over the gap at the ring's end; at any failure to the tail |
| SyncBuf.ShmSyncBuf.FindBySeq | src/lib_bsp/shmc/shm_sync_buf.h:554-572 | the index leads to the node that a walk finds, for every live sequence number |
| SyncBuf.ShmSyncBuf.FindByTime | src/lib_bsp/shmc/shm_sync_buf.h:575-598 | if the sums fit: the oldest live message whose seconds are greater, or equal with as many microseconds or more; failure exactly if every live message is earlier |
| SyncBuf.MiddleExact | src/lib_bsp/shmc/shm_sync_buf.h:586 | the middle lies between its ends exactly if their sum fits in 64 bits |
| SyncBuf.SumsFitExactly | src/lib_bsp/shmc/shm_sync_buf.h:583-586 | the search's condition says just that of every range that it can reach |
| SyncBuf.ShmSyncBuf.SearchNeverEnds | src/lib_bsp/shmc/shm_sync_buf.h:585-592 | without the condition, and with no late node in the index, the loop's range is not empty after any number of rounds |
| SyncBuf.SearchLoops | src/lib_bsp/shmc/shm_sync_buf.h:408 | in every segment created in 2038 or later, with two messages pushed, the search for a later time never ends |
| SyncBuf.ShmSyncBuf.Read | src/lib_bsp/shmc/shm_sync_buf.h:601-648 | meta data and bytes of a live node, cut to the caller's space, also across the ring's end; 0 at the tail; for every other place what its bytes say, checks included |
| SyncBuf.SplitReadIsExact | src/lib_bsp/shmc/shm_sync_buf.h:601-648 | a read whose loads are spread over stores that leave the band alone returns the node as it was, byte for byte, or fails in IsValidPos |
| SyncBuf.ShmSyncBuf.PushDuringRead | src/lib_bsp/shmc/shm_sync_buf.h:343-346 | so it does when its loads fall between any stores of pushes that consume at most 12288 bytes of ring |
| SyncBuf.ShmSyncBuf.ReadString | src/lib_bsp/shmc/shm_sync_buf.h:651-665 | the whole node |
| SyncBuf.ShmSyncBuf.PushAll | src/lib_bsp/shmc/shm_sync_buf.h:343-346 | until 12288 bytes of ring are consumed, no store changes a byte that was readable at the start |
| SyncRep.NodeSizeLeast | src/lib_bsp/shmc/shm_sync_buf.h:299-302 | a node takes the least multiple of 8 bytes that holds its head, its tail and the data |
| SyncRep.ValidPosIsWindow | src/lib_bsp/shmc/shm_sync_buf.h:335-359 | IsValidPos accepts exactly the places from a quarter band before the head, where there is one, up to the tail |
| SyncRep.BandIsLong | src/lib_bsp/shmc/shm_sync_buf.h:343-346 | for 12288 bytes no accepted address is reused |
| SyncRep.LiveFitsIndex | src/lib_bsp/shmc/shm_sync_buf.h:396 | live nodes never outnumber the index's slots, and positions fit its entries |
| JsonReader.Reader.Parse | src/third_part/json/jsoncpp.cpp:318-357 | on any document: succeeds exactly if the document begins with the text of a value, blanks included, and yields the value that this text spells |
| JsonSound.SpelledIsRead | src/third_part/json/jsoncpp.cpp:359-430 | wherever the text of a value stands, with any blanks between its tokens, that value is read and the reader stops behind it |
| JsonSound.ReadIsSpelled | src/third_part/json/jsoncpp.cpp:359-430 | whatever is read is text that spells a value: nothing else is accepted |
| JsonSound.ReadExactly | src/third_part/json/jsoncpp.cpp:359-430 | both directions: a value is read exactly where one is spelled, and it is the one |
| JsonReader.Reader.ReadValue | src/third_part/json/jsoncpp.cpp:359-430 | on any document the reader stays inside it, and reads what the functions over tokens say, or fails with them |
| JsonGrammar.PiecesRead | src/third_part/json/jsoncpp.cpp:821-873 | a string written in plain characters and escapes is decoded to the bytes that they stand for |
| JsonGrammar.PiecesEnd | src/third_part/json/jsoncpp.cpp:604-614 | the scanner ends a string at the first quote that no backslash precedes |
| JsonSound.PiecesFound | src/third_part/json/jsoncpp.cpp:821-873 | a string that can be decoded consists of such characters and escapes |
| JsonGrammar.SurrogatesDecoded | src/third_part/json/jsoncpp.cpp:875-902 | every code point from 0x10000 to 0x10ffff comes back from its two escapes, in digits of either case, as the four bytes of UTF-8 that denote it |
| JsonGrammar.EscapeDecoded | src/third_part/json/jsoncpp.cpp:904-930 | every other code point, but for the high surrogates, comes back from one escape in as many bytes as UTF-8 prescribes |
| JsonGrammar.MarksDecoded | src/third_part/json/jsoncpp.cpp:832-845 | the two-character escapes of a quote, a backslash, a slash and a backspace |
| JsonGrammar.MoreMarksDecoded | src/third_part/json/jsoncpp.cpp:846-857 | those of a form feed, a line feed, a carriage return and a tab |
| JsonGrammar.NoOtherMarks | src/third_part/json/jsoncpp.cpp:865-866 | any other character behind a backslash is refused |
| JsonText.LessIsStrcmp | src/third_part/json/jsoncpp.cpp:1719-1723 | names are ordered by the first byte that differs, a proper prefix first |
| JsonText.InsertSets | src/third_part/json/jsoncpp.cpp:2519-2540 | assigning a member sets this name and leaves the others; each name occurs once |
| JsonText.LastAssigned | src/third_part/json/jsoncpp.cpp:616-669 | an object that was read has for each name the value that was given last |
| JsonRound.WrittenSpells | src/third_part/json/jsoncpp.cpp:3326-3331 | what FastWriter writes spells the value, its strings cut at the first NUL |
| JsonReader.RoundTrip | src/third_part/json/jsoncpp.cpp:318-357 | parsing what FastWriter wrote gives the value back, its strings cut at the first NUL; the same value exactly if there is none |
| JsonReader.DecodeMagnitude | src/third_part/json/jsoncpp.cpp:717-763 | digit by digit without overflow; refused exactly if the number does not fit |
| JsonReader.DecodeNumber | src/third_part/json/jsoncpp.cpp:717-763 | an integer exactly if it has no mark of a double and fits 64 bits |
| JsonReader.DecodeString | src/third_part/json/jsoncpp.cpp:821-873 | the loop computes what the escapes denote, with its failures |
| JsonRound.UnescapeEscaped | src/third_part/json/jsoncpp.cpp:821-873 | undoes the writer's escapes, control characters included |
| JsonRound.QuotedToken | src/third_part/json/jsoncpp.cpp:604-614 | the scanner ends a written string at its own closing quote |
| JsonGrammar.NumeralAgrees | src/third_part/json/jsoncpp.cpp:717-763 | a number token is the integer that its decimal digits denote, if it has no mark of a double and lies between -2^63 and 2^64 - 1, else a real |
| JsonScan.NumberRoundTrip | src/third_part/json/jsoncpp.cpp:717-763 | every 64-bit integer, signed or unsigned, comes back |
| JsonScan.Utf8Denotes | src/third_part/json/jsoncpp.cpp:124-150 | the bytes of a code point denote it, in as many bytes as UTF-8 prescribes |
| JsonWriter.FastWriter.Write | src/third_part/json/jsoncpp.cpp:3326-3331 | the text of the value and a line end |
| JsonWriter.ValueToQuotedString | src/third_part/json/jsoncpp.cpp:3246-3308 | the short cut for plain strings and the walk agree |
| JsonWriter.UIntToString | src/third_part/json/jsoncpp.cpp:171-177 | the digits, filled in from the last one |
| JsonText.DigitsDenote | src/third_part/json/jsoncpp.cpp:171-177 | those digits denote the number |
| JsonText.CutSame | src/third_part/json/jsoncpp.cpp:3246-3253 | writing loses nothing exactly if no string has a NUL |

## Left out

- ShmHashTableM, ShmArray, the allocators, segment creation and attaching, and everything above the
  containers: no harder property needs them. The header checks of attaching are modelled for the
  geometry of the hash table only.
- More than one reader: a reader stores nothing, so each reader is a run of its own with the writer.
- Weak memory: loads and stores take effect in program order, as the source relies on.
- The overload of Find's DoRead that reads into a caller's buffer, in the runs: it makes the second of the
  two reads only that the modelled overload, into a string, makes.
- The hash function, the CRC, the clock and the destructor of keys are parameters. Nothing is assumed about
  the CRC, so the results do not rely on it to detect a torn read.
- A key's destructor may leave any bytes behind, and so do bytes of a value while it is copied: they are
  a parameter of a store.
- The statistic of buffers with a bad link, and HealthCheck of tables damaged by other programs: no crash
  of the writer leads to one. The map's own counts of entries and of recycled values are not modelled.
- The store of `max_row_touched` in the runs: nothing reads the field. The class `HashTable.ShmHashTable` has it.
- Output that changes no state: Dump, log messages and the descriptions of parse errors.
- SyncBuf.ShmSyncBuf.PushDuringRead: that IsValidPos accepts the node's places for so long is not stated; a
  node may be dropped during the read, and a place more than 4096 bytes before the head is refused.
- MapMisses.FindMissesOnlyAbsent: how often each of the three cases occurs, and when a key of one byte can
  be taken for another, which depends on what the destructor of keys leaves behind.
- SyncBuf.ShmSyncBuf.constructor: sizes outside the range that the source's guard describes, which the
  guard as written lets through.
- SyncBuf.ShmSyncBuf.FindByTime: the messages are in order of time, which the source takes for granted.
- SyncBuf.ShmSyncBuf.Push: the wrap of the 64-bit sequence number is excluded, and so are messages of
  2^32 bytes and more, whose length the header cannot hold.
- Queue.ShmQueue.Push: messages of 2^32 bytes and more, whose length the header cannot hold.
- LinkTable.ShmLinkTable.HealthCheck: the branch for a chain with a foreign tag in the middle, which no
  crash of the writer leads to.
- JsonReader.RoundTrip: values with a double. A double is kept as the text it was read from, since the
  conversion by sscanf and printf is not part of this model; the tag that tells signed from unsigned
  integers is not modelled.
- JsonReader.Reader.Parse: comments are not modelled, a slash outside a string starts an error token;
  FastWriter writes none. A number that is no integer of 64 bits is a real, whatever its text; sscanf refuses
  some of these texts. The limit of the C++ stack on nesting is not modelled.
- Geometry.GetPrimeArray: the loop variables are unbounded; all values of the source fit 64 bits.
