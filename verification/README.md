# Verified model of the central-server, DSQL-pool, recovery and trigger-generation code

This project models, in Dafny, five pieces of the InterBase source that share the same themes — a heap
worked on in place, linked queues, and protocols between parties that can fail — and proves what they
promise. `dafny verify dfyconfig.toml` checks all of it.

* **The shared message region (`csv/css.c`).** `RegionTiles` and `RegionHeap` are the best-fit, coalescing
  allocator over the words of the region; `Queues` the circular, doubly linked queues; `Fabric` the state
  machine of processes, paired connections, messages, events and semaphores, with its invariant;
  `FabricRuns` whole runs of it, `FabricSteps` what a step finds and leaves, `LatePost` one run in particular.
  `MessageRegion` is the C code's own form: one class whose methods work on the heap and the links, each
  proved to be a step of the state machine. Every section between ACQUIRE and RELEASE is one step; an event
  is a counter, and clearing it asks for the next count. "Space exhausted" ends a run, and so does a post to
  a process block that is gone.
* **The DSQL pools (`dsql/alld.c`).** `PoolTiles` says how live and free blocks tile the hunks of a pool;
  `Pools` is one pool with its mutually recursive allocation and extension; `PoolVector` is the vector of
  pools, `find_pool`, and the release of pools whose own blocks lie in the memory being released. Sizes are
  those of the 32-bit layout and are counted in longwords.
* **Blob and array transport (`csv/csi.c` with `csv/csv.c`) and the server's books.** `Blobs` holds the
  access method's own segment semantics and the counted wire form; `BlobTransport` the buffered reader and
  writer; `ArrayTransport` arrays sent in pieces; `Attachments` the server's database names, attachments and
  shutdown.
* **Two-phase-commit recovery (`alice/tdr.c`).** `TwoPhase` has the decision fold, an in-order coordinator
  that may crash at any point, and the action step.
* **Referential-action triggers (`dsql/ddl.c`).** `Blr` is the subset of BLR the triggers use, with a
  parser, a printer and a meaning; `TriggerText` emits the trigger definitions; `TriggerMeaning` says what
  they do to a database.

Where the code falls short of what it means to do, the model follows the code and the gap is a result:

* `put_message` posts the receiver's event after it has released the region, and the event lies in the
  receiver's process block. If that process is deleted in between, the count goes up in memory that has been
  given back. `LatePost` has such a run; `StrayExactly` and `PostsLiveExactly` say that a run is free of it
  if and only if it deletes no process that another is just about to post. In the model such a post ends the
  run, as an exhausted region does.
* A sender killed in that same place has queued its message and never posts it. `NoLostWakeUps` shows that
  this is the only way for a receiver to sleep on a message it waits for, and that closing the dead sender's
  connection, which is what `CSS_probe_processes` does, wakes it.
* `TDR_analyze` would advise a commit on a list in which no database has a record (`AdviceWrongExactly` says
  which lists, from what can be seen in them alone). No such list is made, because the list itself comes out
  of a record (alice/met.e:179-240); with that, the advice is sound on everything the tool analyses.
* The branch of `TDR_reconnect_multiple` for "either commit or rollback is possible" is never taken
  (`EitherNeverAdvised`).
* The firing condition of the update triggers would overlook a key column that becomes null
  (`UpdateCascadeIntegrity` says exactly when that matters, `NullSlipsThrough` gives an instance). Columns of a
  PRIMARY KEY or UNIQUE constraint must be NOT NULL (jrd/dyn_def.e:404-427), and on such keys the triggers
  always keep integrity (`CompleteKeysKeepIntegrity`).

## Model

| member | source | states |
|---|---|---|
| RegionTiles.CarveKeepsLayout | csv/css.c:1069-1080 | serving a request from a free block, whole or from its end, leaves the region tiled and the free blocks coalesced |
| RegionTiles.CarveHandsOut | csv/css.c:1069-1083 | the block handed out is big enough, was in nobody's use and lies inside the free block it came from; no other block changes hands |
| RegionTiles.ReleasedKeepsLayout | csv/css.c:1478-1498 | giving a block back, with merging on both sides, leaves the region tiled and coalesced |
| RegionTiles.ReleasedLive | csv/css.c:1442-1498 | giving a block back takes exactly that block out of use |
| RegionTiles.ReleaseUndoesCarve | csv/css.c:1030-1083 | freeing the block just allocated restores the layout exactly, for every free block and size |
| RegionTiles.NothingLiveIsInitial | csv/css.c:1542-1547 | a coalesced layout with nothing in use is the single free block made by init |
| RegionTiles.FreeAllRestoresInitial | csv/css.c:1442-1498 | freeing all blocks in any order ends in the single free block made by init |
| RegionTiles.RunLiesInOneTile | csv/css.c:1030-1083 | contiguous free bytes never straddle two free blocks |
| RegionTiles.ExhaustedIffNoRun | csv/css.c:1051-1067 | no free block is long enough if and only if no contiguous run of free bytes is |
| RegionTiles.LinkAt | csv/css.c:1462-1469 | at every position the free chain has exactly one link, from the last free block before it to the first after it |
| RegionHeap.GlobalRegion.constructor | csv/css.c:1542-1547 | init makes one free block of everything behind the header |
| RegionHeap.GlobalRegion.FindBest | csv/css.c:1048-1060 | the walk of the free chain finds the shortest free block that is long enough, the first of several, or none when there is none |
| RegionHeap.GlobalRegion.AllocGlobal | csv/css.c:1030-1083 | reports exhaustion exactly when no contiguous run of free bytes reaches the least multiple of 4 that holds the request; otherwise hands out a fresh block of the kind asked for that holds it, from the shortest free block, the first of several, which it takes whole only if less than a free block would be left; words, tiling and chain stay in step, and blocks in use stay as they are |
| RegionHeap.GlobalRegion.FindSlot | csv/css.c:1462-1469 | finds the free neighbours of a block in use in the chain |
| RegionHeap.GlobalRegion.FreeGlobal | csv/css.c:1442-1498 | a block in use is never punted on and afterwards is free, merged with its neighbours; an address outside the region or in free space, such as a block given back twice, is always punted on and leaves the layout as it was |
| RegionHeap.GlobalRegion.Validate | csv/css.c:966-1009 | in every state the other operations can reach the consistency walk never punts; and on any words, where it does not punt, the headers lead from block to block exactly to the end, no link leads beyond it, and none is passed by without a block at its end |
| Queues.RingsInsert | csv/css.c:1558-1580 | inserting at the tail of one queue appends to it and leaves every other queue as it was |
| Queues.RingsRemove | csv/css.c:1701-1722 | unlinking a node removes it from its queue and leaves every other queue as it was |
| Queues.Walk | csv/css.c:518-524 | following forward links from a head visits the queue's nodes in order and returns to the head |
| Queues.Links.InsertTail | csv/css.c:1558-1580 | the four link updates append the node to the queue |
| Queues.Links.RemoveQue | csv/css.c:1701-1722 | the link updates take the node out of the queue it is in |
| Fabric.CreateKeeps | csv/css.c:319-369 | creating a process keeps the whole invariant |
| Fabric.ConnectKeeps | csv/css.c:279-317 | making a connection and its mirror keeps the whole invariant |
| Fabric.PutKeeps | csv/css.c:1643-1653 | depositing a message, after which the sender owes the receiver a post, keeps the whole invariant |
| Fabric.PostKeeps | csv/css.c:1659-1666 | a sender's post to a receiver that is still there keeps the whole invariant |
| Fabric.DieKeeps | csv/css.c:829-857 | a process may die in any place, also before a post it owes, without breaking the invariant |
| Fabric.StrayExactly | csv/css.c:1659-1663 | a step leaves a pending post without its process block if and only if it deletes a process that another is about to post |
| Fabric.GetKeeps | csv/css.c:518-565 | taking the oldest matching message keeps the whole invariant |
| Fabric.WaitKeeps | csv/css.c:546-561 | starting or ending a wait keeps the whole invariant |
| Fabric.DisconnectKeeps | csv/css.c:1200-1259 | half and full close keep the whole invariant |
| Fabric.ReapKeeps | csv/css.c:1153-1198 | deleting a process keeps the whole invariant |
| Fabric.StepKeepsInv | csv/css.c:279-1680 | every step keeps: mirrored pairs, one queue position per open side, messages only on allocated connections of the queue's owner, distinct nonzero semaphores, no lost wake-up unless a sender died before its post |
| Fabric.DetachedInbox | csv/css.c:1224-1239 | disconnecting purges exactly the messages that came over that connection; all others stay where they were |
| Fabric.NoConnectionsNoMessages | csv/css.c:1171-1183 | a process without connections has an empty message queue, and no connection names it |
| FabricRuns.ReachedInv | csv/css.c:279-1680 | the invariant holds after every run from the initial region |
| FabricRuns.InOrderDelivery | csv/css.c:466-573 | for every run, what was received on a connection is a prefix of what was put on it, in order and without repeats; the disconnect message is the last; while the receiver's side is open what is queued is exactly the difference |
| FabricRuns.FilteredGet | csv/css.c:518-565 | for every run, a get on side c is possible exactly while the other side of c has something pending and delivers the first of it; the receiver may wait exactly if there is nothing and the other side is open |
| FabricRuns.OpenGet | csv/css.c:518-565 | for every run, a get without a connection takes the head of the queue, and the receiver may wait exactly if the queue is empty |
| FabricRuns.SleepsUntilPosted | csv/css.c:546-561 | a process that has cleared its event and waits cannot wake until it is posted, by a sender or by the closing of a connection to it |
| FabricRuns.NoLostWakeUps | csv/css.c:515-561 | for every run, if a process is blocked while a matching message is queued, then it can wake, or that message's sender is alive and its very next step posts it, or that sender is dead with its side still open and closing that side wakes the process |
| FabricRuns.FreedTogether | csv/css.c:1241-1258 | the two blocks of a connection leave the region together, and only when the second side disconnects |
| FabricRuns.GoneLeavesNoTrace | csv/css.c:1153-1198 | after every run no queue, node or connection names a process that is not there |
| FabricRuns.ReapReturnsEverything | csv/css.c:1153-1198 | deleting a process whose connections are closed finds its inbox empty, touches no message or connection, and returns its semaphore, which no other process holds |
| FabricRuns.PostsLiveExactly | csv/css.c:1153-1198 | for every run: no post ever finds its process block gone, if and only if the run deletes no process that another one is about to post |
| LatePost.StrayPostReached | csv/css.c:1645-1666 | a run after which a sender is about to post a process whose block has been freed |
| MessageRegions.MessageRegion.constructor | csv/css.c:1500-1556 | a new region is the initial state, with every semaphore but number 0 free |
| MessageRegions.MessageRegion.AllocSemaphore | csv/css.c:1086-1113 | takes the lowest free semaphore, or none when none is free |
| MessageRegions.MessageRegion.CreateProcess | csv/css.c:319-369 | is the create step of the state machine, with the lowest free semaphore; when none is left the region is as before |
| MessageRegions.MessageRegion.OpenConnection | csv/css.c:279-317 | is the connect step |
| MessageRegions.MessageRegion.PutMessage | csv/css.c:1643-1653 | is the put step while the partner is there, and leaves the sender about to post it; otherwise it changes nothing |
| MessageRegions.MessageRegion.PostEvent | csv/css.c:1659-1666 | is the sender's post step if the receiver is still there; otherwise the post is stray and the run ends |
| MessageRegions.MessageRegion.FreeMessage | csv/css.c:391-408 | gives back a message that is in no queue, and nothing else |
| MessageRegions.MessageRegion.FindMessage | csv/css.c:518-524 | finds the oldest queued message, of any connection or of the one whose mirror is asked for |
| MessageRegions.MessageRegion.GetMessage | csv/css.c:466-573 | hands over the oldest message that came over the other side of the connection asked for, or the head of the queue if none is asked for, and renames it to the receiver's own side; otherwise there is no such message, and it is the block step, or nothing when polling, when the partner is gone or when the timer has gone off |
| MessageRegions.MessageRegion.WakeUp | csv/css.c:551-561 | is the wake step, enabled only once the event count is reached |
| MessageRegions.MessageRegion.PurgeInbox | csv/css.c:1224-1235 | unlinks and frees exactly the queued messages of the connection being closed |
| MessageRegions.MessageRegion.CloseConnection | csv/css.c:1200-1259 | is the disconnect step, half or full |
| MessageRegions.MessageRegion.DeleteProcess | csv/css.c:1153-1198 | terminates, and is a sequence of disconnects of that process followed by its reap |
| MessageRegions.MessageRegion.ReleaseSemaphore | csv/css.c:1683-1698 | puts exactly that semaphore back into the free set |
| MessageRegions.MessageRegion.ProbeProcesses | csv/css.c:829-857 | afterwards the processes are exactly those found alive and the caller itself, although the list changes during the walk |
| PoolTiles.BlocksDisjoint | dsql/alld.c:238-288 | two blocks of a pool never share a longword |
| PoolTiles.TakeKeeps | dsql/alld.c:238-262 | carving from the end or handing out the whole block keeps hunks tiled, the free list ascending and coalesced; the block was in nobody's use and nothing else changes hands |
| PoolTiles.GrowTiles | dsql/alld.c:775-784 | a system hunk entered as one block keeps the tiling |
| PoolTiles.MarkFree | dsql/alld.c:868-904 | a block put on the free list at its place keeps the list sorted; only that block can still touch another free one |
| PoolTiles.JoinFree | dsql/alld.c:908-942 | merging two neighbours on the list keeps tiling and list, and the sum fits a USHORT because hunks never touch |
| PoolTiles.JoinedNext | dsql/alld.c:906-923 | after merging with the next block nothing free follows |
| PoolTiles.JoinedPrior | dsql/alld.c:925-942 | after merging with the prior block the free blocks are fully coalesced |
| Pools.HunkSize | dsql/alld.c:775-781 | for every legal size a hunk has room for the request and its own descriptor, and never exceeds what a USHORT counts, so neither "too greedy" check can fire |
| Pools.TakeLeaves | dsql/alld.c:209-262 | an allocation shrinks no free block by more than its own size |
| Pools.Pool.FindBest | dsql/alld.c:211-227 | finds the shortest free block that is long enough, the first of several, and none only if there is none |
| Pools.Pool.Fitting | dsql/alld.c:209-232 | the search loop ends, extending the pool once if nothing fits and not at all otherwise |
| Pools.Pool.ExtendPool | dsql/alld.c:755-801 | the nested descriptor allocation never extends again, a fitting free block is left, and the new hunk heads the chain with its descriptor in that hunk or an older one |
| Pools.Pool.Alloc | dsql/alld.c:157-288 | terminates together with extend_pool; the block is zeroed, in nobody's use before, big enough and at most a free block's header longer; it is cut from the shortest free block that fits, the first of several; no block in use or its contents change, and at most one hunk is added |
| Pools.Pool.Release | dsql/alld.c:840-950 | takes exactly that block out of use and keeps list and tiling; never a bugcheck on a block in use; a free block is always caught as released twice, and one that was merged into another free block by one of the two overlap bugchecks, and it says which |
| Pools.Pool.Extend | dsql/alld.c:290-344 | the new block has the old one's kind and contents, zeros beyond; the old block is released and all others keep header and contents |
| PoolVectors.Territory | dsql/alld.c:830-835 | an address belongs to a pool exactly if one of its hunks covers it |
| PoolVectors.PoolVector.constructor | dsql/alld.c:403-443 | pool 0 and the vector inside it are set up soundly |
| PoolVectors.PoolVector.FindPool | dsql/alld.c:803-838 | returns the owning pool from the id modulo 256, with any number of pools |
| PoolVectors.PoolVector.FreeHunks | dsql/alld.c:748-752 | newest first, every descriptor is still mapped when it is read, and exactly the pool's hunks are freed |
| PoolVectors.PoolVector.ReleasePool | dsql/alld.c:710-753 | the slot is cleared in the vector, every block read or written is still mapped at that point, and the other pools stay sound |
| PoolVectors.PoolVector.Fini | dsql/alld.c:346-380 | from the last slot down to pool 0, the vector is mapped whenever a slot is read from it, and nothing stays mapped |
| PoolVectors.PoolVector.AllocBlock | dsql/alld.c:157-288 | allocation keeps all pools sound and disjoint |
| PoolVectors.PoolVector.ReleaseBlock | dsql/alld.c:690-708 | the block goes back to the pool it came from, and all pools stay sound |
| PoolVectors.PoolVector.ExtendVector | dsql/alld.c:290-344 | the vector moves within pool 0; the longwords of the new block hold the old slots, the new count, and zeros beyond |
| PoolVectors.PoolVector.NewPool | dsql/alld.c:483-544 | the first empty slot, and no later one, after extending the vector by ten if there is none, gets a pool whose own block lies in its oldest hunk, and its address is written to the vector |
| PoolVectors.DescriptorAt | dsql/alld.c:796-800 | a descriptor lies in its own hunk or an older one, and no hunk is listed twice |
| Blobs.ReadsConserve | csv/csi.c:1466-1610 | for every blob and every sequence of buffer sizes, what is read and what is left make up the blob |
| Blobs.ReadsAssemble | csv/csi.c:1466-1610 | for every blob and every sequence of buffer sizes that reaches its end, the statuses tell the client exactly where each segment begins and ends |
| Blobs.PrependRead | csv/csi.c:1526-1605 | a read answered in several pieces is the access method's one answer |
| BlobTransport.BlobServer.GetSegmentBuf | csv/csv.c:1783-1827 | a batch holds consecutive segments in counted form, its last one possibly cut, and says so |
| BlobTransport.BlobReader.GetSegment | csv/csi.c:1466-1610 | terminates, and returns the data and status the access method's get_segment would have returned |
| BlobTransport.BlobReader.ReadAll | csv/csi.c:1466-1610 | any sequence of reads through the buffer equals the same reads made directly |
| BlobTransport.BlobSink.PutSegmentBuf | csv/csv.c:2581-2601 | a batch is taken apart into exactly the segments that were put into it |
| BlobTransport.BlobWriter.PutSegment | csv/csi.c:1843-1904 | every segment, empty or larger than the buffer, is added once and in order |
| BlobTransport.BlobWriter.Close | csv/csi.c:422-458 | what has not been sent yet is sent |
| BlobTransport.BlobWriter.WriteAll | csv/csi.c:1843-1904 | any sequence of puts ended by a close makes exactly the same sequence of put_segment calls at the server |
| ArrayTransport.ArrayServer.PutSlice | csv/csv.c:2606-2709 | collects the pieces and calls the access method once, with the last message's sdl and parameters; a handle of another database or transaction is refused and nothing changes |
| ArrayTransport.ArrayServer.GetSlice | csv/csv.c:1832-1939 | fetches the array once, with the first message's sdl and parameters, and hands out consecutive pieces; a handle of another database or transaction is refused |
| ArrayTransport.PutSlice | csv/csi.c:1906-1979 | the access method receives exactly the client's bytes, sdl and parameters in one call, and no handle is left over |
| ArrayTransport.GetSlice | csv/csi.c:1612-1692 | the pieces concatenate to the stored array, fetched in one call with the client's sdl and parameters; the rest of the buffer is untouched, a null array reads as zeros |
| Attachments.BooksRelease | csv/csv.c:2989-3005 | releasing an attachment keeps every count equal to the live attachments and every name listed |
| Attachments.BooksForget | csv/csv.c:938-952 | a name block without attachments can be freed without leaving an attachment that names it |
| Attachments.RollbacksAre | csv/csv.c:1105-1116 | each transaction is rolled back as often as it occurs outside limbo, and none in limbo is |
| Attachments.LimboAre | csv/csv.c:1105-1116 | the transactions in limbo, and no others, are left |
| Attachments.Server.ShutdownIsSafe | csv/csv.c:949-952 | shutdown is set only when no names and no attachments remain |
| Attachments.Server.FindName | csv/csv.c:1613-1641 | the first serviced name that matches over the given length, skipping disabled and killed ones unless asked |
| Attachments.Server.Attach | csv/csv.c:700-785 | lets the client in exactly if the engine does and the first enabled block of that name has no limit or has not reached it; then that block counts the attachment, and otherwise nothing changes |
| Attachments.Server.CheckIfDone | csv/csv.c:902-953 | a disabled or killed name without attachments is dropped and the server's own attachment, if it has one, detached once; any other name stays and nothing is said; shutdown follows the last name |
| Attachments.Server.ReleaseDatabase | csv/csv.c:2953-3006 | exactly that attachment goes and its name's count drops by one |
| Attachments.Server.AbortTransactions | csv/csv.c:1105-1116 | rolls back the non-limbo transactions in order and leaves the limbo ones |
| Attachments.Server.Disconnect | csv/csv.c:1074-1122 | the attachment of that connection, if any, is rolled back, detached and released; with the last attachment of a disabled or killed name the server's own one is detached too |
| Attachments.Server.EndTransaction | csv/csv.c:1337-1388 | a transaction that is committed or rolled back leaves its attachment, all others stay |
| Attachments.Server.DisableOrKill | csv/csv.c:1029-1071 | kill ends exactly the attachments of that name, each with its farewell once, and drops the name; disable drops it only if idle; calls to the engine and shutdown are stated for each |
| Attachments.Server.AllNames | csv/csv.c:3506-3518 | over all names, although the list changes during the walk: kill leaves no name and no attachment and says every farewell in order, disable leaves the busy names; shutdown is set exactly if no name is left of some |
| Attachments.Server.Enable | csv/csv.c:3521-3546 | a name not yet known is entered with no attachments, unless the server is to attach it itself and fails |
| Attachments.Server.StartTransaction | csv/csv.c:2069-2092 | a new transaction heads its attachment's list |
| Attachments.Server.MarkLimbo | csv/csv.c:1371-1384 | a prepared or commit-retained transaction counts as limbo |
| TwoPhase.Analyze | alice/tdr.c:66-168 | the loop with its early exits computes: a contradiction silences everything, else the last subtransaction with an opinion decides, else unknown if any is unknown |
| TwoPhase.VerdictSays | alice/tdr.c:66-168 | the advice for every list in terms of its states: none beside a contradiction, else the last call for a commit or a rollback, else unknown as soon as one is unknown |
| TwoPhase.EitherNeverAdvised | alice/tdr.c:507-514 | no list is analysed as "either commit or rollback is possible" |
| TwoPhase.CrashInOrder | alice/tdr.c:86-144 | every crash state of an in-order coordinator is ordered as the comments assume |
| TwoPhase.RecordedMeansStarted | alice/met.e:179-240 | if any database holds a description of the transaction, the first subtransaction was prepared |
| TwoPhase.AdviceIsSound | alice/tdr.c:66-168 | for every crash point that left a record and every set of unreachable databases: commit is advised only if one committed, rollback only if one was rolled back or never prepared and none committed |
| TwoPhase.AdviceWrongExactly | alice/tdr.c:86-151 | from the list alone: some run behind it gets advice against its outcome if and only if the list has no record at all and the first and another database say so |
| TwoPhase.SeenRecordSuffices | alice/met.e:158-162 | a list with a single record to be seen in it is never misjudged |
| TwoPhase.AdviceIsComplete | alice/tdr.c:66-168 | with every database reachable and something in limbo, the advice is exactly the truth |
| TwoPhase.FollowingAdviceAgrees | alice/tdr.c:518-526 | applying decisive advice to the limbo subtransactions puts all reachable ones on one side |
| TwoPhase.RerunDecidesTheSame | alice/tdr.c:66-168 | after any partial application with something still in limbo, also if more databases have come into reach, the decision is the same |
| TwoPhase.RerunNeverReverses | alice/tdr.c:66-168 | after any partial application, complete or not, and whichever databases are in reach the next time, the opposite is never advised |
| TwoPhase.ReconnectMultiple | alice/tdr.c:410-538 | asks whenever the advice is not decisive or a switch goes against it, and never when a switch agrees; when asked, does to every limbo subtransaction what the operator says and otherwise nothing; when not asked, does what is advised if any of the switches allows it and otherwise nothing; touches no other subtransaction |
| TwoPhase.UnattendedFollowsAdvice | alice/tdr.c:446-526 | without an operator's answer nothing is committed or rolled back against the advice |
| TwoPhase.UnattendedRecoveryIsSafe | alice/tdr.c:446-526 | unattended, a transaction is committed only if the coordinator had begun to commit it, and rolled back only if nothing of it was committed |
| Blr.StmtPrinted | jrd/par.c:2712-2757 | every printed statement is read back whole, whatever follows it |
| Blr.StmtRead | jrd/par.c:2712-2757 | only the printed form of a statement parses to it, so every accepted text has one reading |
| Blr.BoolPrinted | jrd/par.c:2085-2110 | a printed boolean is read back whole |
| TriggerText.CodeReadsBack | dsql/ddl.c:3741-3766 | the back-patched length lets the code be read back exactly when the code fits the length word, and never otherwise |
| TriggerText.DefinitionReadsBack | dsql/ddl.c:3107-3204 | a definition is taken apart into exactly its clauses, its code into exactly its tree |
| TriggerText.DefinitionCode | jrd/dyn_def.e:3909-3942 | the columns a definition sets before its code are its type, sequence 1, active and its relation, and the code found parses to its tree if it fits the length word and to nothing otherwise |
| TriggerText.MatchText | dsql/ddl.c:5555-5583 | the operators placed by counting columns form a well-nested prefix conjunction for every number of columns |
| TriggerText.DiffersText | dsql/ddl.c:5608-5632 | likewise the disjunction of the firing condition |
| TriggerText.Request.PutCString | dsql/ddl.c:5238-5291 | a counted name: a word under a DYN verb, a byte inside BLR |
| TriggerText.Request.BeginBlr | dsql/ddl.c:641-669 | reserves the length and remembers where |
| TriggerText.Request.EndBlr | dsql/ddl.c:3741-3766 | patches the number of bytes that follow, modulo the word size, through the signed cast |
| TriggerText.Request.StuffMatching | dsql/ddl.c:5529-5586 | emits the printed match of the whole key |
| TriggerText.Request.StuffFiringCond | dsql/ddl.c:5588-5633 | emits the printed firing condition of the whole key |
| TriggerText.Request.DefineUpdCascade | dsql/ddl.c:3107-3204 | emits the definition of the update-cascade tree |
| TriggerText.Request.DefineDelCascade | dsql/ddl.c:1305-1364 | emits the definition of the delete-cascade tree |
| TriggerText.Request.DefineSetNull | dsql/ddl.c:2454-2561 | emits the definition of the set-null tree, guarded on update only |
| TriggerMeaning.MatchMeans | dsql/ddl.c:5529-5586 | the match is true exactly if all n columns are non-null and equal |
| TriggerMeaning.FiringMeans | dsql/ddl.c:5588-5633 | the firing condition is true exactly if some column has two known, different values |
| TriggerMeaning.CopyMeans | dsql/ddl.c:3171-3194 | the assignments change the foreign columns and nothing else |
| TriggerMeaning.UpdateCascadeMeans | dsql/ddl.c:3107-3204 | rewrites exactly the rows that hold the old key, exactly in their key columns, to the new key |
| TriggerMeaning.EmittedCascade | dsql/ddl.c:3107-3204 | from emission to rows: the bytes appended, read as the engine reads them, cascade the key after an update of the primary relation and do nothing on any other occasion or for any other relation, exactly if the code fits its length word, and are rejected otherwise |
| TriggerMeaning.DefinitionRuns | jrd/met.e:2052-2062 | on every occasion a definition runs its tree exactly if it is on that relation and of a type the engine fires then, and its code fits |
| TriggerMeaning.EmittedDelete | dsql/ddl.c:1305-1364 | likewise for the delete cascade: after a deletion from the primary relation and on no other occasion |
| TriggerMeaning.EmittedSetNull | dsql/ddl.c:2454-2561 | likewise for set null: after an update of the primary relation or after a deletion from it, as asked for, and on no other occasion |
| TriggerMeaning.DeleteCascadeMeans | dsql/ddl.c:1305-1364 | removes exactly the rows that hold the old key |
| TriggerMeaning.SetNullMeans | dsql/ddl.c:2454-2561 | empties the key columns of exactly those rows |
| TriggerMeaning.UpdateCascadeIntegrity | dsql/ddl.c:3107-3204 | after an update every foreign key still refers to a record, if and only if the change was noticed, the new key has no null, or no row held the old key |
| TriggerMeaning.SetNullOnUpdateIntegrity | dsql/ddl.c:2454-2561 | the same condition, both ways, for set null on update |
| TriggerMeaning.CompleteKeysKeepIntegrity | jrd/dyn_def.e:404-427 | on keys whose columns are NOT NULL, as referenced keys must be, both update triggers always keep integrity |
| TriggerMeaning.SetNullOnDeleteIntegrity | dsql/ddl.c:2454-2561 | set null on delete keeps every foreign key referring, whatever the keys |
| TriggerMeaning.DeleteCascadeIntegrity | dsql/ddl.c:1305-1364 | delete cascade keeps every foreign key referring, whatever the keys |
| TriggerMeaning.NullSlipsThrough | dsql/ddl.c:5588-5633 | what the firing condition would miss without NOT NULL: an instance of a dangling reference |

## Left out

- Platform code of csv/css.c and csv/csi.c: locks, mutexes, signals, file mapping, timers and process
  spawning; only the atomic sections and an abstract event counter remain.
- Lock balance: put_message returns without RELEASE when the partner is gone (csv/css.c:1645-1649), and
  CSS_create_process when no semaphore is left (csv/css.c:339-340). The model has no lock; it describes the region.
- MessageRegions.MessageRegion.CreateProcess: that the lock stays taken when no semaphore is left.
- A process does one thing at a time: while it is in put_message it makes no other call. Its exit handler, and
  a prober once it is dead, may take down its connections and its block at any moment.
- The state after "space exhausted" is not described; the region's methods then promise only that no run of
  free bytes was long enough.
- Queue links are named by the field they are part of, not by byte offsets into a block.
- 32-bit wrap-around of region offsets and of byte counts that the sources keep in ULONG.
- MessageRegions.MessageRegion.PutMessage: the caller still owns its side of the connection.
- MessageRegions.MessageRegion.CloseConnection: the caller still owns its side of the connection.
- MessageRegions.MessageRegion.PostEvent: which memory a stray post changes, and what follows from it.
- RegionHeap.GlobalRegion.AllocGlobal: requests of at least the size of a free block, as every caller makes;
  a smaller block could not be put on the free chain again.
- RegionHeap.GlobalRegion.FreeGlobal: an address in the middle of a block in use, or in the region's header, which the
  C code takes for a block; it is not described what happens then.
- RegionHeap.GlobalRegion.Validate: lengths and types in the headers are not negative; a negative length could make the
  C loop go backwards for ever.
- Pools.Pool.Alloc: the size is given in bytes; its computation from the block type and count is not modelled,
  nor is a failing system allocation. The system's hunk is assumed disjoint from, and not adjacent to, the
  memory of every pool.
- PoolVectors.PoolVector.ReleaseBlock: for ordinary blocks; releasing a pool's own block, a descriptor or the
  vector through it is a caller's error that the C code does not detect.
- Pools.Pool.Release: an address inside a block in use, which the C code does not detect either; and what a pool
  looks like after a bugcheck, which does not return.
- Pool statistics under SUPERSERVER, the LLS stacks of ALLD_push and ALLD_pop, and the variant in alice/all.c.
- Reuse of a larger cached server buffer (get_buffer), blob seek, engine errors in the middle of a batch, and
  sends that fail.
- Attachments.Server.Attach: a connection carries one attachment; every attach of csv/csi.c makes its own.
- The multi-threaded server, requests, SQL statements and events of an attachment, UTIL_list, the gateway and
  pipe variants.
- TwoPhase: reattaching databases, descriptions, prompting and the operator's typing are inputs.
- How the engine goes on reading a definition behind code that its length word has cut short; the code found
  is then no program, and the model stops there. Clauses behind the code do not matter to what runs.
- Set-default triggers, the BLR version 4 flag, names longer than 255 bytes, and triggers that fire one
  another on a relation that refers to itself.
- TriggerMeaning.UpdateCascadeIntegrity: the columns of the foreign key are distinct, and keys of the primary
  relation are unique.
- The rest of dsql/ddl.c, burp, and the command-line tools: sequential emission, devices and user interface.
