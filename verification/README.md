# Redis 3.2.6 core, modelled and proved in Dafny

The repository vendors Redis 3.2.6. This project models the parts of it whose
correctness is hard to see and proves what they promise: the cluster protocol
(epochs, elections, config epoch collisions, slot ownership), the hash table with
incremental rehashing, its safe iterator and its scan cursor, the append only file
(format, flushing, background rewrite), the keyspace with expiry and its replay, and
the word-parallel bit operations.

How the files fit together:

- `ClusterNode` holds one node and its handlers, as functions and as a class that
  updates its fields; `ClusterProtocol` the transition system of nodes and packets in
  flight, with a record of votes, counts and wins; `ClusterSafety` what every run keeps
  and the safety of elections; `ClusterCarry` the run that shows why its condition is
  needed; `ClusterCollision` the end of epoch collisions; `ClusterHandlers` what each
  handler decides, both ways, and why every vote of a run was due.
- `SlotModel` is slot ownership as a value, `SlotTable` the table updated in place.
- `Words` has machine words as bit sequences and the parallel reversal; `Tables`,
  `DictModel` and `DictMap` the two-table dict and its meaning as a map; `DictLoad` when
  it grows and how full it gets; `DictScan` the scan cursor; `DictIter` safe iteration; `Dict` the classes over arrays.
- `AofCodec` is the file format and the loader, `AofBuffer` the rewrite buffer,
  `AofFlush` the flush, `AofRewrite` the rewrite protocol between parent and child over
  FIFO pipes, `AofChunks` the emission of large objects.
- `Keyspace` is one database, its commands, their log and its replay; `KeyIndex` the
  slot index; `Database` the store updated in place.
- `BitCount`, `BitSearch`, `BitOperations` and `Bitfield` are the four groups of bit
  operations.

What the proofs found in the code:

- An acknowledgement that arrives after a slave has re-scheduled its election and
  before the next one starts is counted, and the next election begins with it. As long
  as this does not happen at most one node wins an epoch, which `ClusterSafety` proves for
  all runs; `ClusterCarry` gives a run where it happens and two nodes win.
- Config epoch collisions take at most n(n-1)/2 changes, fewer than an exponential
  count would allow, because every epoch a node gives up is held by a greater node.
- A scan call in the middle of a rehash misses nothing exactly when the cursor bits
  between the two masks are a block of ones; this is wider than all zeros.
- `SET` with `EX` or `PX` is logged as it was given, unlike `SETEX` and `EXPIRE`, so its
  expiry moves with the time of loading. All other commands replay exactly.
- A slave whose master is unknown dereferences a null pointer on a claim of an
  unassigned slot; setting a signed bitfield far below its range saturates at the wrong
  end. Both have their exact conditions.
- `clusterDelNodeSlots` is documented to return the number of deleted slots; it returns
  the number of all slots. The model follows the code.

All integers are unbounded unless a width matters, and then it is written out. Bytes
are integers from 0 to 255 in the file format and 8-bit vectors in the bit operations.

## Model

| member | source | states |
|---|---|---|
| `ClusterNode.MergeHeader` | Aufgabe3/backup/root/redis-stable/src/cluster.c:1601-1612 | adopting the epochs of a header changes neither who the node knows, nor its votes, nor its election, and never lowers its current epoch |
| `ClusterNode.Collision` | Aufgabe3/backup/root/redis-stable/src/cluster.c:1872-1879 | a collision step changes nothing but epochs and never lowers the current one |
| `ClusterNode.RecordVote` | Aufgabe3/backup/root/redis-stable/src/cluster.c:2557-2562 | after a vote the last vote epoch is the current epoch; the election of the voter itself is untouched |
| `ClusterNode.ApplyUpdate` | Aufgabe3/backup/root/redis-stable/src/cluster.c:1953-1974 | an UPDATE changes what is known of one node, not the votes, the election or the current epoch |
| `ClusterNode.AfterFailover` | Aufgabe3/backup/root/redis-stable/src/cluster.c:2704-2869 | no run of the failover handler lowers the current epoch, records a vote or changes the set of known nodes |
| `ClusterNode.SetConfigEpoch` | Aufgabe3/backup/root/redis-stable/src/cluster.c:4322-4358 | setting the first config epoch keeps votes and election and never lowers the current epoch |
| `ClusterNode.ServerState.MergeEpochs` | Aufgabe3/backup/root/redis-stable/src/cluster.c:1601-1612 | the node state updated in place is MergeHeader of the old one |
| `ClusterNode.ServerState.SendFailoverAuthIfNeeded` | Aufgabe3/backup/root/redis-stable/src/cluster.c:2466-2566 | the loop over the claimed slots and the tests before it decide as in VoteGrantedIff; the state is then RecordVote of the old one, otherwise unchanged |
| `ClusterNode.ServerState.HandleSlaveFailover` | Aufgabe3/backup/root/redis-stable/src/cluster.c:2704-2869 | the branch taken and the new state are those of FailoverOutcome and AfterFailover |
| `ClusterNode.ServerState.Schedule` | Aufgabe3/backup/root/redis-stable/src/cluster.c:2773-2807 | a new attempt clears the vote count and sets the start time from clock, random delay and rank, or at once for a manual failover |
| `ClusterSafety.MintedIsNewest` | Aufgabe3/backup/root/redis-stable/src/cluster.c:1042-1043 | a newly minted config epoch exceeds every config epoch the node knows, and keeps the epochs ordered |
| `ClusterSafety.BumpReachesMax` | Aufgabe3/backup/root/redis-stable/src/cluster.c:970-987 | after a bump without consensus no known config epoch is above the node's own, which is not zero |
| `ClusterSafety.FailoverKeepsEpochs` | Aufgabe3/backup/root/redis-stable/src/cluster.c:2836-2862 | an election runs in an epoch above every config epoch the candidate knows, and every outcome keeps the epochs ordered |
| `ClusterSafety.VotesAreSpaced` | Aufgabe3/backup/root/redis-stable/src/cluster.c:2524-2533 | after a vote for a slave of a master, none for a slave of that master before twice the node timeout |
| `ClusterSafety.GrantedEpoch` | Aufgabe3/backup/root/redis-stable/src/cluster.c:2484-2500 | a granted vote is for exactly the epoch of the request and later than every earlier vote of the node |
| `ClusterSafety.NotYetCounted` | Aufgabe3/backup/root/redis-stable/src/cluster.c:1928-1940 | a vote whose acknowledgement is in flight has not been counted, and no second acknowledgement of it is in flight |
| `ClusterSafety.DeliveryKeeps` | Aufgabe3/backup/root/redis-stable/src/cluster.c:1601-1612 | delivering any packet keeps the protocol invariant |
| `ClusterSafety.FailoverKeeps` | Aufgabe3/backup/root/redis-stable/src/cluster.c:2704-2869 | every outcome of the failover handler keeps the protocol invariant |
| `ClusterSafety.StepKeeps` | Aufgabe3/backup/root/redis-stable/src/cluster.c:1601-1974 | every step of any node, and every loss or delivery of a packet, keeps the protocol invariant |
| `ClusterSafety.RunKeepsInv` | Aufgabe3/backup/root/redis-stable/src/cluster.c:1601-1974 | the protocol invariant holds in every state of every run |
| `ClusterSafety.EpochsStayOrdered` | Aufgabe3/backup/root/redis-stable/src/cluster.c:2145-2147 | in every reachable state the current epoch of a node is at least every epoch it knows, votes in or runs for, and no packet carries a config epoch above its current epoch, the UPDATE payload included |
| `ClusterSafety.CountIsExact` | Aufgabe3/backup/root/redis-stable/src/cluster.c:2773-2778 | in every reachable state the vote count is the count carried into the election plus the distinct masters counted since, each of which voted for this node in this epoch |
| `ClusterSafety.VotesAreFinal` | Aufgabe3/backup/root/redis-stable/src/cluster.c:2493-2500 | along every run a vote, once cast, is the only one of that master in that epoch, and no current, vote or election epoch goes back |
| `ClusterSafety.ElectionSafety` | Aufgabe3/backup/root/redis-stable/src/cluster.c:2852-2865 | two elections won in the same epoch, each on a quorum of masters counted in it, quorums that do not fit side by side into the voting masters, were won by the same node |
| `ClusterSafety.QuorumIsGenuineIff` | Aufgabe3/backup/root/redis-stable/src/cluster.c:2852-2853 | in every reachable state the masters counted in this election are a quorum if and only if the count reaches the quorum without what was carried in |
| `ClusterSafety.WinIsGenuine` | Aufgabe3/backup/root/redis-stable/src/cluster.c:2852-2853 | a win with nothing carried in rests on a quorum of masters that voted for the winner in that epoch |
| `ClusterSafety.RunCarriesNothing` | Aufgabe3/backup/root/redis-stable/src/cluster.c:2836-2841 | if every election starts with an empty count, no win ever rests on votes of an earlier election |
| `ClusterSafety.OneWinnerPerEpoch` | Aufgabe3/backup/root/redis-stable/src/cluster.c:2852-2865 | in such a run at most one node wins the elections of an epoch |
| `ClusterCarry.TwoWinnersInOneEpoch` | Aufgabe3/backup/root/redis-stable/src/cluster.c:2777-2838 | without that condition the property fails: a run of 14 steps, with no crash and no duplicated packet, in which two slaves win the same epoch, one of them on acknowledgements counted between re-scheduling and starting |
| `ClusterCarry.LateAcknowledgements` | Aufgabe3/backup/root/redis-stable/src/cluster.c:1928-1940 | the reachable state in the middle of that run: two acknowledgements of the abandoned election have been counted |
| `ClusterCollision.PingReceived` | Aufgabe3/backup/root/redis-stable/src/cluster.c:1035-1050 | a PING changes the config epoch of its receiver only if it comes from a node of greater name with the same epoch, and then to a greater one |
| `ClusterCollision.Abandoned` | Aufgabe3/backup/root/redis-stable/src/cluster.c:1035-1050 | an epoch a node has given up has been held by a node of greater name |
| `ClusterCollision.HeldIsCurrent` | Aufgabe3/backup/root/redis-stable/src/cluster.c:1035-1050 | every epoch a node has ever held is at present the epoch of that node or of one with a greater name |
| `ClusterCollision.BumpsBounded` | Aufgabe3/backup/root/redis-stable/src/cluster.c:1035-1050 | in every run of PINGs a master changes its config epoch at most once for each master of greater name |
| `ClusterCollision.CollisionsEnd` | Aufgabe3/backup/root/redis-stable/src/cluster.c:1035-1050 | n masters change their config epochs at most n(n-1)/2 times in all, whatever is lost, delayed or reordered (this implies the bound 2^n - 1 - n) |
| `ClusterCollision.QuietIffDistinct` | Aufgabe3/backup/root/redis-stable/src/cluster.c:1872-1879 | no up-to-date PING changes an epoch if and only if the epochs are pairwise distinct |
| `ClusterHandlers.HeaderMeans` | Aufgabe3/backup/root/redis-stable/src/cluster.c:2116-2171 | a slave with a known master publishes its master's config epoch, any other node its own |
| `ClusterHandlers.MergeMeans` | Aufgabe3/backup/root/redis-stable/src/cluster.c:1601-1612 | the current epoch becomes the greater of the two, the known config epoch of a known sender the greater of the two, and nothing else of any node changes |
| `ClusterHandlers.CollisionIff` | Aufgabe3/backup/root/redis-stable/src/cluster.c:1035-1050 | a new config epoch, one above the current one, is taken if and only if both are masters with the same epoch and the sender has the greater name; otherwise nothing changes |
| `ClusterHandlers.AckCountedIff` | Aufgabe3/backup/root/redis-stable/src/cluster.c:1928-1940 | an acknowledgement is counted if and only if it comes from a known master with slots and is not older than the election |
| `ClusterHandlers.UpdateMeans` | Aufgabe3/backup/root/redis-stable/src/cluster.c:1953-1974 | an UPDATE takes effect if and only if sender and described node are known and the latter has an older config epoch; it is then a master with the new one, and no other node changes |
| `ClusterNode.ServerState.GetMaxEpoch` | Aufgabe3/backup/root/redis-stable/src/cluster.c:926-939 | the greatest of the current epoch and all known config epochs |
| `ClusterHandlers.MaxEpochIsUnique` | Aufgabe3/backup/root/redis-stable/src/cluster.c:926-939 | what the protocol takes as the greatest epoch is that one number |
| `ClusterHandlers.BumpIff` | Aufgabe3/backup/root/redis-stable/src/cluster.c:970-987 | a new epoch, one above the current one, is taken if and only if the own one is zero or not the greatest known |
| `ClusterHandlers.SetEpochIff` | Aufgabe3/backup/root/redis-stable/src/cluster.c:4322-4358 | the first config epoch is set if and only if the node knows no other and has none; the current epoch is raised to it, and nothing else changes |
| `ClusterHandlers.VoteGrantedIff` | Aufgabe3/backup/root/redis-stable/src/cluster.c:2466-2566 | a vote is granted if and only if the voter is a master with slots, the request is not old, no vote was given in this epoch, the candidate is a slave of a known master that failed (or the request forces), two node timeouts have passed, and no claimed slot is known with a newer config epoch |
| `ClusterHandlers.VoteRecordedMeans` | Aufgabe3/backup/root/redis-stable/src/cluster.c:2560-2563 | a vote records its epoch and its time at the master, and changes nothing else |
| `ClusterHandlers.EveryVoteIsWarranted` | Aufgabe3/backup/root/redis-stable/src/cluster.c:2466-2566 | in every run, every vote recorded was cast on the delivery of a request by that candidate for that epoch, to a voter that met all these conditions at that moment: none was cast while the voter knew a claimed slot with a newer owner |
| `ClusterHandlers.QuorumIsMajority` | Aufgabe3/backup/root/redis-stable/src/cluster.c:2704-2708 | the quorum is the smallest majority of the masters |
| `ClusterHandlers.OutcomeIff` | Aufgabe3/backup/root/redis-stable/src/cluster.c:2704-2869 | when the handler does nothing, schedules an attempt, starts an election and wins it, each if and only if a condition on reason, clock, rank delay and count, with the times in milliseconds written out |
| `ClusterHandlers.HealthyMasterStaysMaster` | Aufgabe3/backup/root/redis-stable/src/cluster.c:2727-2738 | a slave whose master has not failed does nothing unless a manual failover was started |
| `ClusterHandlers.OutcomeMeans` | Aufgabe3/backup/root/redis-stable/src/cluster.c:2773-2865 | what each outcome does to count, epochs, start time, rank and roles, and that nothing else changes |
| `SlotModel.AssignKeeps` | Aufgabe3/backup/root/redis-stable/src/cluster.c:3418-3423 | assigning an unassigned slot and setting its bit keeps table, bitmaps and counters in agreement |
| `SlotModel.UnassignKeeps` | Aufgabe3/backup/root/redis-stable/src/cluster.c:3428-3435 | the owner of an assigned slot has its bit set, so the assertion holds, and clearing both keeps the agreement |
| `SlotModel.SlotsAddUp` | Aufgabe3/backup/root/redis-stable/src/cluster.c:3377-3407 | the slot counters of all nodes sum to the number of assigned slots |
| `SlotModel.KnownClaimIsIdle` | Aufgabe3/backup/root/redis-stable/src/cluster.c:1813-1826 | a claim equal to the bitmap already known for the sender would change nothing, so skipping it is sound |
| `SlotModel.ClaimsOnlyRenew` | Aufgabe3/backup/root/redis-stable/src/cluster.c:1480-1496 | a slot changes hands exactly when it is claimed, not imported, and its owner, if any, has a strictly older config epoch |
| `SlotModel.TookUnassignedIff` | Aufgabe3/backup/root/redis-stable/src/cluster.c:1474-1496 | a claim takes an unassigned slot exactly when it claims one that is not being imported |
| `SlotModel.ClaimsConverge` | Aufgabe3/backup/root/redis-stable/src/cluster.c:1442-1502 | from an unassigned table, whatever the order and repetition in which claims of distinct epochs are heard, each slot ends with its claimant of highest epoch, or unassigned if nobody claims it |
| `SlotModel.OrderDoesNotMatter` | Aufgabe3/backup/root/redis-stable/src/cluster.c:1442-1502 | two nodes that heard the same claims in different orders have the same table |
| `SlotTable.NoMasterIff` | Aufgabe3/backup/root/redis-stable/src/cluster.c:1452-1512 | the null pointer to the current master is dereferenced exactly when we are a slave of an unknown master and the claim covers an unassigned slot we are not importing |
| `SlotTable.DirtyMeans` | Aufgabe3/backup/root/redis-stable/src/cluster.c:1480-1489 | a slot is in the list of dirty slots if and only if it was ours, is no longer and holds keys; the list is ascending |
| `SlotTable.ReplicaIff` | Aufgabe3/backup/root/redis-stable/src/cluster.c:1504-1530 | we turn into a replica if and only if a slot was taken from our master, or from us if we are one, and neither it nor we have a slot left, in terms of numslots |
| `SlotTable.Table.constructor` | Aufgabe3/backup/root/redis-stable/src/cluster.c:653-680 | a fresh table: every slot unassigned, nothing imported or migrated, one node |
| `SlotTable.Table.AddSlot` | Aufgabe3/backup/root/redis-stable/src/cluster.c:3418-3423 | refused exactly when the slot has an owner; otherwise that slot, and no other, goes to the node |
| `SlotTable.Table.DelSlot` | Aufgabe3/backup/root/redis-stable/src/cluster.c:3428-3435 | refused exactly when the slot has no owner; that slot, and no other, is unassigned; the assertion never fires |
| `SlotTable.Table.DelNodeSlots` | Aufgabe3/backup/root/redis-stable/src/cluster.c:3439-3447 | exactly the slots of the node are unassigned; the number returned is that of all slots, not of those deleted |
| `SlotTable.Table.DelNode` | Aufgabe3/backup/root/redis-stable/src/cluster.c:863-890 | the node is gone from the nodes and from every owner, importing and migrating entry, and its slaves have no master; nothing else changes |
| `SlotTable.Table.CloseAllSlots` | Aufgabe3/backup/root/redis-stable/src/cluster.c:3451-3456 | no slot is being imported or migrated afterwards, and owners are untouched |
| `SlotTable.Table.SetMaster` | Aufgabe3/backup/root/redis-stable/src/cluster.c:3638-3654 | the node follows the given master; one that was a master closes its importing and migrating slots |
| `SlotTable.Table.UpdateSlotsConfigWith` | Aufgabe3/backup/root/redis-stable/src/cluster.c:1442-1530 | exactly the claimed slots that are not imported and have no newer owner change hands; we turn into a replica exactly when a slot was taken from our master and it has none left; otherwise the slots taken from us that hold keys are reported, in order |
| `SlotTable.Table.ReplaceMaster` | Aufgabe3/backup/root/redis-stable/src/cluster.c:2666-2694 | a slave becomes a master that owns exactly the slots its master had, besides its own; a master or a slave without master changes nothing |
| `SlotTable.Table.SetSlotNode` | Aufgabe3/backup/root/redis-stable/src/cluster.c:4018-4065 | accepted on a master for a known node unless we would give away a slot that holds keys; the slot then belongs to the node, and the migrating and importing marks are cleared as documented |
| `Words.Rev` | Aufgabe3/backup/root/redis-stable/src/dict.c:758-766 | the parallel exchange of halves reverses the bits of the word |
| `Words.IndexIsPrefix` | Aufgabe3/backup/root/redis-stable/src/dict.c:852-921 | masking a word with 2^e - 1 keeps its e low bits |
| `DictModel.NextExp` | Aufgabe3/backup/root/redis-stable/src/dict.c:948-958 | the smallest power of two, from the initial size on, that is at least the size |
| `DictModel.SearchFinds` | Aufgabe3/backup/root/redis-stable/src/dict.c:492-511 | an entry is in the table if and only if a search for its key finds it |
| `DictModel.ExpandIfNeededOk` | Aufgabe3/backup/root/redis-stable/src/dict.c:926-945 | the expansion an insertion asks for never fails and keeps every entry |
| `DictModel.MoveBucketOk` | Aufgabe3/backup/root/redis-stable/src/dict.c:245-288 | moving a bucket keeps the table invariant and every entry |
| `DictModel.FinishRehashOk` | Aufgabe3/backup/root/redis-stable/src/dict.c:245-288 | swapping the tables at the end of a rehash keeps every entry |
| `DictModel.Rehash` | Aufgabe3/backup/root/redis-stable/src/dict.c:245-288 | any number of rehash steps keeps the table invariant and every entry |
| `DictModel.RehashStep` | Aufgabe3/backup/root/redis-stable/src/dict.c:317-319 | a rehash step, suppressed while an iterator runs, keeps the invariant and every entry |
| `DictMap.UsedCountsKeys` | Aufgabe3/backup/root/redis-stable/src/dict.c:346-372 | the two used counters add up to the number of keys |
| `DictMap.AddIsMapInsert` | Aufgabe3/backup/root/redis-stable/src/dict.c:346-372 | adding fails exactly when the key is present, and otherwise adds exactly that binding, whatever rehashing it does on the way |
| `DictMap.FindIsMapLookup` | Aufgabe3/backup/root/redis-stable/src/dict.c:492-511 | finding is looking up, and changes no binding |
| `DictMap.ReplaceIsMapUpdate` | Aufgabe3/backup/root/redis-stable/src/dict.c:378-397 | replacing sets exactly that binding, and says whether the key is new |
| `DictMap.DeleteIsMapRemove` | Aufgabe3/backup/root/redis-stable/src/dict.c:412-447 | deleting succeeds exactly when the key is present, and removes exactly that binding |
| `DictMap.RehashEndsWithinSize` | Aufgabe3/backup/root/redis-stable/src/dict.c:245-288 | with no iterator a rehash is over after as many steps as the old table has buckets, with the same bindings |
| `DictLoad.ExpandStartsIff` | Aufgabe3/backup/root/redis-stable/src/dict.c:926-945 | a rehash is started if and only if there are at least as many keys as buckets and resizing is allowed or there are six times as many; the new table is then the smallest power of two from 4 on that holds twice the keys |
| `DictLoad.FirstTable` | Aufgabe3/backup/root/redis-stable/src/dict.c:926-945 | a dict without a table gets one of four buckets |
| `DictLoad.ExpandRefusesIff` | Aufgabe3/backup/root/redis-stable/src/dict.c:204-234 | an expansion is refused, and changes nothing, if and only if a rehash is running, there are more keys than the size, or the size would stay |
| `DictLoad.PrepareMakesRoom` | Aufgabe3/backup/root/redis-stable/src/dict.c:966-988 | before an insertion a rehash is running or there are fewer keys than buckets, or than six times the buckets if resizing is discouraged |
| `DictLoad.RehashWork` | Aufgabe3/backup/root/redis-stable/src/dict.c:245-288 | a call with n that does not end the rehash has moved exactly n chains, or stopped after 10 n empty buckets, and never passes more of either |
| `DictLoad.RunKeepsLoad` | Aufgabe3/backup/root/redis-stable/src/dict.c:926-945 | in every run of adds, finds, replaces and deletes without iterator, the keys and the buckets still to be moved fit the table they go to, but for one |
| `DictLoad.KeysFitBuckets` | Aufgabe3/backup/root/redis-stable/src/dict.c:926-945 | in every such run, whenever no rehash is running, there is at most one key more than there are buckets |
| `DictScan.FrontierMoves` | Aufgabe3/backup/root/redis-stable/src/dict.c:852-921 | a cursor step passes, in bit-reversed order, only hashes of the bucket it was at |
| `DictScan.WalkEmits` | Aufgabe3/backup/root/redis-stable/src/dict.c:896-908 | the expansion loop emits exactly the entries of the buckets it walks |
| `DictScan.WalkSkipsNothingIff` | Aufgabe3/backup/root/redis-stable/src/dict.c:896-908 | a call in mid-rehash walks everything not passed before if and only if the cursor bits between the two masks are a block of ones |
| `DictScan.ShrunkTableSkips` | Aufgabe3/backup/root/redis-stable/src/dict.c:896-908 | masks 0011 and 1111 with cursor 1010: bucket 0110 is neither passed nor walked, yet left behind |
| `DictScan.CallEmitsCrossed` | Aufgabe3/backup/root/redis-stable/src/dict.c:852-921 | an entry whose hash the cursor passes during a call is emitted by that call |
| `DictScan.ScanIsComplete` | Aufgabe3/backup/root/redis-stable/src/dict.c:852-921 | with any inserts, deletes and rehashing between calls, a key present at every call of a complete scan is emitted, provided every call in mid-rehash has a clean cursor |
| `DictScan.GrowingTablesAreClean` | Aufgabe3/backup/root/redis-stable/src/dict.c:852-921 | every cursor is clean as long as the smaller table never shrinks |
| `DictScan.ScanIsCompleteWithoutShrinking` | Aufgabe3/backup/root/redis-stable/src/dict.c:852-921 | then a key present throughout is emitted, with no other condition |
| `DictScan.StaticScan` | Aufgabe3/backup/root/redis-stable/src/dict.c:852-921 | an unchanging table is scanned in exactly as many calls as it has buckets, each bucket in exactly one of them |
| `DictScan.StaticCalls` | Aufgabe3/backup/root/redis-stable/src/dict.c:852-921 | on an unchanging table that is not being rehashed, the calls of a scan are those, each emitting its bucket |
| `DictScan.ScanCall` | Aufgabe3/backup/root/redis-stable/src/dict.c:852-921 | the loops of dictScan compute the emitted entries and the next cursor of the specification |
| `DictIter.AdvanceTakesHead` | Aufgabe3/backup/root/redis-stable/src/dict.c:578-611 | dictNext returns the first entry of what remains and leaves the rest, or nothing if nothing remains |
| `DictIter.RunKeepsInv` | Aufgabe3/backup/root/redis-stable/src/dict.c:571-622 | finds, adds and deletions of the current entry between calls keep the iteration invariant, rehash started or not |
| `DictIter.ApplyMeans` | Aufgabe3/backup/root/redis-stable/src/dict.c:571-622 | what the client does between calls: a find may rehash and changes no binding, an add binds a new key, the current entry is deleted |
| `DictIter.NeverReturnedTwice` | Aufgabe3/backup/root/redis-stable/src/dict.c:571-622 | no entry is returned twice |
| `DictIter.IterationIsComplete` | Aufgabe3/backup/root/redis-stable/src/dict.c:571-622 | when dictNext returns NULL, every entry present since the start has been returned |
| `Dict.NextPower` | Aufgabe3/backup/root/redis-stable/src/dict.c:948-958 | doubling from the initial size reaches the smallest sufficient power of two, for sizes below LONG_MAX |
| `Dict.SearchChain` | Aufgabe3/backup/root/redis-stable/src/dict.c:492-511 | the first entry of a chain with the key, or none |
| `Dict.Dict.Rehash` | Aufgabe3/backup/root/redis-stable/src/dict.c:245-288 | the arrays relinked in place are the specified rehash of the old ones |
| `Dict.Dict.RehashStep` | Aufgabe3/backup/root/redis-stable/src/dict.c:317-319 | one step, none while an iterator runs |
| `Dict.Dict.Expand` | Aufgabe3/backup/root/redis-stable/src/dict.c:204-234 | the new table, or the refusal, is as specified |
| `Dict.Dict.ExpandIfNeeded` | Aufgabe3/backup/root/redis-stable/src/dict.c:926-945 | the tables afterwards are those of the specification, which ExpandStartsIff and FirstTable describe |
| `Dict.Dict.Add` | Aufgabe3/backup/root/redis-stable/src/dict.c:346-372 | the dict afterwards and the result are those proved to be a map insertion |
| `Dict.Dict.Find` | Aufgabe3/backup/root/redis-stable/src/dict.c:492-511 | the result is that proved to be a map lookup |
| `Dict.Dict.Replace` | Aufgabe3/backup/root/redis-stable/src/dict.c:378-397 | the dict afterwards and the result are those proved to be a map update |
| `Dict.Dict.Delete` | Aufgabe3/backup/root/redis-stable/src/dict.c:412-447 | the dict afterwards and the result are those proved to be a map removal |
| `Dict.SafeIterator.Next` | Aufgabe3/backup/root/redis-stable/src/dict.c:578-611 | the iterator afterwards and the entry returned are those of the specification; the first call registers the iterator |
| `AofCodec.CatGenericCommand` | Aufgabe3/backup/root/redis-stable/src/aof.c:449-472 | the loop appends the encoding of the command |
| `AofCodec.FormatIs` | Aufgabe3/backup/root/redis-stable/src/aof.c:449-472 | a command is a star, the number of its arguments and CR LF, then for each a dollar sign, its length, CR LF, its bytes and CR LF, with the byte values written out |
| `AofCodec.DecimalIs` | Aufgabe3/backup/root/redis-stable/src/aof.c:449-472 | numbers are written with the digits 0 to 9, most significant first |
| `AofCodec.CommandRead` | Aufgabe3/backup/root/redis-stable/src/aof.c:642-697 | a command with any bytes in its arguments, followed by anything, is read back, and what follows is left |
| `AofCodec.LineIs` | Aufgabe3/backup/root/redis-stable/src/aof.c:642-697 | a line of the file goes through the first line feed, or to 127 bytes, or to the end |
| `AofCodec.NumberMeans` | Aufgabe3/backup/root/redis-stable/src/aof.c:642-697 | a number is read with blanks and a sign before its digits and up to the first byte that is no digit, as atoi and strtol do |
| `AofCodec.NotANumber` | Aufgabe3/backup/root/redis-stable/src/aof.c:642-697 | where no number begins, zero is read |
| `AofCodec.CommandCut` | Aufgabe3/backup/root/redis-stable/src/aof.c:642-697 | a command cut short anywhere is recognised as cut short, never as another command or a format error |
| `AofCodec.LoadIsInverse` | Aufgabe3/backup/root/redis-stable/src/aof.c:613-765 | loading what was written gives the commands that were written |
| `AofCodec.LoadOfPrefix` | Aufgabe3/backup/root/redis-stable/src/aof.c:613-765 | loading any prefix gives exactly the complete commands and the offset where the last of them ends; without aof-load-truncated it is refused unless it ends between two commands |
| `AofCodec.ReadArguments` | Aufgabe3/backup/root/redis-stable/src/aof.c:660-685 | the argument loop reads the specified arguments or stops with the specified error |
| `AofCodec.LoadAppendOnlyFile` | Aufgabe3/backup/root/redis-stable/src/aof.c:613-765 | the loading loop gives the specified commands, offset or error |
| `AofBuffer.RewriteBuffer.Append` | Aufgabe3/backup/root/redis-stable/src/aof.c:124-168 | the bytes of the rewrite buffer grow by exactly the data, and no block is overfilled |
| `AofBuffer.RewriteBuffer.SendDiff` | Aufgabe3/backup/root/redis-stable/src/aof.c:95-121 | whatever the writes accept, what was sent and what remains are the old contents; nothing is sent once told to stop |
| `AofBuffer.RewriteBuffer.WriteAll` | Aufgabe3/backup/root/redis-stable/src/aof.c:173-193 | success means all bytes were written in order; otherwise a prefix was |
| `AofFlush.FlushConserves` | Aufgabe3/backup/root/redis-stable/src/aof.c:287-425 | for every outcome of the write file and buffer together are unchanged and the recorded size is that of the file; a complete write empties the buffer |
| `AofFlush.FlushWaitsIff` | Aufgabe3/backup/root/redis-stable/src/aof.c:287-330 | a flush of a buffer that is not empty waits if and only if the policy is everysec, an fsync is pending, the flush is not forced and it has not waited two seconds yet |
| `AofFlush.FlushWrites` | Aufgabe3/backup/root/redis-stable/src/aof.c:330-425 | a flush that is forced or need not wait moves the bytes the write took from the front of the buffer to the end of the file, all of them if the write is complete; a short write that can be truncated away changes neither |
| `AofFlush.ExitsIff` | Aufgabe3/backup/root/redis-stable/src/aof.c:340-395 | the process ends if and only if the policy is always and not all of a buffer was written |
| `AofFlush.AppendLog.FlushAppendOnlyFile` | Aufgabe3/backup/root/redis-stable/src/aof.c:287-425 | the process ends exactly on an incomplete write under the policy always; otherwise the log in place is that of the specification |
| `AofRewrite.TracksFed` | Aufgabe3/backup/root/redis-stable/src/aof.c:511-524 | after feeding, the log replays every command in its own database from whatever database it starts in |
| `AofRewrite.SelectSelects` | Aufgabe3/backup/root/redis-stable/src/aof.c:517-524 | the SELECT that is logged has the six letters and the decimal of the database, and loading it selects that database and no other |
| `AofRewrite.CommandsReplay` | Aufgabe3/backup/root/redis-stable/src/aof.c:517-524 | running the commands of a log, SELECT by SELECT, runs each in the database its record says |
| `AofRewrite.RewriteStep` | Aufgabe3/backup/root/redis-stable/src/aof.c:517-556 | feeding, partial pipe writes, child reads, both '!' and flushes keep: what the child has, what is in the pipe and what waits is everything fed since the fork, in order |
| `AofRewrite.OneExchange` | Aufgabe3/backup/root/redis-stable/src/aof.c:1180-1204 | in every run at most one '!' is on its way in either control pipe, and the child goes on to its end only after the parent has stopped sending |
| `AofRewrite.RewriteCanSucceed` | Aufgabe3/backup/root/redis-stable/src/aof.c:1129-1171 | a child that is still writing can bring the rewrite to its end by the exchange of '!', and the new file then holds the snapshot, what it read, what is in the pipe and what waits |
| `AofRewrite.RewriteMayFail` | Aufgabe3/backup/root/redis-stable/src/aof.c:1380-1466 | it may fail at any time; the parent then forgets the rewrite and its log is as before |
| `AofRewrite.LostAnswer` | Aufgabe3/backup/root/redis-stable/src/aof.c:1186-1198 | an answer that is lost is not sent again, and the child can only fail |
| `AofRewrite.FlushReachesFile` | Aufgabe3/backup/root/redis-stable/src/aof.c:287-425 | a forced flush whose write is complete brings the whole log to the file and changes nothing else |
| `AofRewrite.RewriteEnds` | Aufgabe3/backup/root/redis-stable/src/aof.c:1380-1466 | when the parent switches files, the new file is the snapshot and everything fed since the fork |
| `AofRewrite.RewriteIsExact` | Aufgabe3/backup/root/redis-stable/src/aof.c:1015-1171 | in every interleaving a rewrite that succeeds leaves the snapshot followed by every byte fed since the fork, once and in order, and running the commands of those bytes runs each in its own database |
| `AofRewrite.LogIsExact` | Aufgabe3/backup/root/redis-stable/src/aof.c:548-549 | while no rewrite succeeds, file and buffer together grow by exactly the records fed, through every outcome of every write, forks and failed rewrites included |
| `AofRewrite.LogAfterRewrite` | Aufgabe3/backup/root/redis-stable/src/aof.c:1459-1466 | after a rewrite the log is the snapshot and everything fed since the fork, before the switch and after it, each command in its own database |
| `AofRewrite.RestartRunsTheLog` | Aufgabe3/backup/root/redis-stable/src/aof.c:613-765 | running the commands loaded from such a log runs those of the snapshot and then exactly what was fed since the fork, each in its own database, from whatever database the loader starts in |
| `AofRewrite.RestartAfterRewrite` | Aufgabe3/backup/root/redis-stable/src/aof.c:1459-1466 | a restart right after a rewrite runs the snapshot and what was fed during the rewrite, each command in its own database |
| `AofChunks.RewriteObject` | Aufgabe3/backup/root/redis-stable/src/aof.c:787-991 | the bytes emitted are the encoding of the chunked commands, so every declared count is the number of arguments that follow |
| `AofChunks.ChunksAreBounded` | Aufgabe3/backup/root/redis-stable/src/aof.c:787-991 | every command names the type and the key, has at least one item and at most the limit |
| `AofChunks.RewriteList` | Aufgabe3/backup/root/redis-stable/src/aof.c:787-817 | the bytes emitted are commands that rebuild exactly this list, with at most 64 elements each |
| `AofChunks.RewriteSet` | Aufgabe3/backup/root/redis-stable/src/aof.c:821-864 | the bytes emitted are commands that rebuild exactly this set, with at most 64 members each |
| `AofChunks.RewriteSortedSet` | Aufgabe3/backup/root/redis-stable/src/aof.c:868-933 | the bytes emitted are commands that rebuild exactly this sorted set, with at most 64 members each |
| `AofChunks.RewriteHash` | Aufgabe3/backup/root/redis-stable/src/aof.c:967-991 | the bytes emitted are commands that rebuild exactly this hash, with at most 64 fields each |
| `AofChunks.ListIsRebuilt` | Aufgabe3/backup/root/redis-stable/src/aof.c:787-817 | replaying, of the commands for the key, those named RPUSH gives the list, for any limit |
| `AofChunks.SetIsRebuilt` | Aufgabe3/backup/root/redis-stable/src/aof.c:821-864 | replaying the SADD commands gives the set |
| `AofChunks.SortedSetIsRebuilt` | Aufgabe3/backup/root/redis-stable/src/aof.c:868-933 | replaying the ZADD commands gives every member its score |
| `AofChunks.HashIsRebuilt` | Aufgabe3/backup/root/redis-stable/src/aof.c:967-991 | replaying the HMSET commands gives every field its value |
| `Keyspace.ExpireIfNeeded` | Aufgabe3/backup/root/redis-stable/src/db.c:896-930 | afterwards the key is not due, unless we are loading; expires stay a subset of the keys |
| `Keyspace.OthersUntouched` | Aufgabe3/backup/root/redis-stable/src/db.c:226-236 | no command touches a key it does not name |
| `Keyspace.SetMeans` | Aufgabe3/backup/root/redis-stable/src/t_string.c:67-93 | SET with its conditions, as a client sees it; EX n makes the key due 1000 n after now, PX n makes it due n after now, and plain SET takes the expire time away |
| `Keyspace.AppendMeans` | Aufgabe3/backup/root/redis-stable/src/t_string.c:435-466 | APPEND puts the bytes after the old ones and keeps the expire time |
| `Keyspace.ExpireMeans` | Aufgabe3/backup/root/redis-stable/src/db.c:943-987 | an existing key keeps its value and is due at now + 1000 n, 1000 n, now + n or n for EXPIRE, EXPIREAT, PEXPIRE and PEXPIREAT, or is gone if that is past |
| `Keyspace.RenameMeans` | Aufgabe3/backup/root/redis-stable/src/db.c:731-771 | the destination gets value and expire time and the source is gone, unless there is no source or RENAMENX finds a destination |
| `Keyspace.SetexMeans` | Aufgabe3/backup/root/redis-stable/src/t_string.c:147-155 | the value, due 1000 n after now for SETEX and n after now for PSETEX; nothing for a time that is not positive |
| `Keyspace.SecondsAreThousands` | Aufgabe3/backup/root/redis-stable/src/db.c:943-987 | EXPIRE, EXPIREAT and SETEX do, to database and log, what PEXPIRE, PEXPIREAT and PSETEX do with a thousand times the number; SET EX does so to the database |
| `Keyspace.ExpiryMeans` | Aufgabe3/backup/root/redis-stable/src/db.c:896-930 | lazy expiry deletes a key, and logs DEL, if and only if now is past its expire time, that is not negative, and we are not loading |
| `Keyspace.PersistMeans` | Aufgabe3/backup/root/redis-stable/src/db.c:1035-1049 | the key stays with its value and no expire time, even one that was due but not yet deleted |
| `Keyspace.LogMeans` | Aufgabe3/backup/root/redis-stable/src/aof.c:511-559 | what each command on one key logs: the expiry of the key first, times absolute and in milliseconds, and nothing if it was not carried out |
| `Keyspace.RenameLogMeans` | Aufgabe3/backup/root/redis-stable/src/db.c:731-771 | RENAME is logged after the expiries it causes, if and only if it was carried out |
| `Keyspace.DelLogMeans` | Aufgabe3/backup/root/redis-stable/src/db.c:344-358 | DEL is logged after the expiries it causes, if and only if one of its keys was there |
| `Keyspace.CycleMeans` | Aufgabe3/backup/root/redis-stable/src/server.c:727-743 | the active expire cycle deletes a key exactly when it is due |
| `Keyspace.DelMeans` | Aufgabe3/backup/root/redis-stable/src/db.c:344-358 | DEL leaves none of its keys |
| `Keyspace.ExecKeepsOk` | Aufgabe3/backup/root/redis-stable/src/db.c:840-870 | every command keeps the expires a subset of the keys |
| `Keyspace.ReplayExpiry` | Aufgabe3/backup/root/redis-stable/src/db.c:880-930 | replaying the DEL that a lazy expiry logged does what the expiry did |
| `Keyspace.SetexReplays` | Aufgabe3/backup/root/redis-stable/src/aof.c:530-538 | SETEX and PSETEX, logged as SET and PEXPIREAT, are replayed exactly at any time |
| `Keyspace.ExpireReplays` | Aufgabe3/backup/root/redis-stable/src/aof.c:481-509 | EXPIRE and its variants, logged as PEXPIREAT or DEL, are replayed exactly at any time |
| `Keyspace.RenameReplays` | Aufgabe3/backup/root/redis-stable/src/db.c:731-771 | RENAME, with the expiries it causes, is replayed exactly |
| `Keyspace.DelReplays` | Aufgabe3/backup/root/redis-stable/src/db.c:344-358 | DEL of many keys, some of them due, is replayed exactly |
| `Keyspace.CommandReplaysIff` | Aufgabe3/backup/root/redis-stable/src/aof.c:511-559 | replaying what a command logged gives the database it left if and only if it was not a SET with EX or PX that was carried out, or the clock shows the same time |
| `Keyspace.LogReplays` | Aufgabe3/backup/root/redis-stable/src/aof.c:511-559 | for any commands at any times, replaying the log at any time gives the same keys, values and expires, as long as no SET with EX or PX was carried out |
| `Keyspace.LogReplaysAtAnyTimes` | Aufgabe3/backup/root/redis-stable/src/aof.c:613-765 | the same with a clock that moves in any way while the log is loaded |
| `Keyspace.RelativeTimeDrifts` | Aufgabe3/backup/root/redis-stable/src/aof.c:525-543 | the counterexample: SET k v PX 100 at time 1000, reloaded at time 5000, is due at 5100 instead of 1100 |
| `KeyIndex.FirstInRange` | Aufgabe3/backup/root/redis-stable/src/db.c:1296-1309 | the first entry of a slot, or none if the slot has no key |
| `KeyIndex.LastInRange` | Aufgabe3/backup/root/redis-stable/src/db.c:1314-1320 | the last entry of a slot |
| `KeyIndex.CountKeysInSlot` | Aufgabe3/backup/root/redis-stable/src/db.c:1296-1323 | the count computed from two ranks is the number of keys of the slot |
| `Database.Store.DbAdd` | Aufgabe3/backup/root/redis-stable/src/db.c:157-164 | the key is added to dict and index; its assertion is the precondition |
| `Database.Store.DbOverwrite` | Aufgabe3/backup/root/redis-stable/src/db.c:171-176 | only the value changes |
| `Database.Store.DbDelete` | Aufgabe3/backup/root/redis-stable/src/db.c:226-236 | the key is gone from dict, expires and index; says whether it was there |
| `Database.Store.SlotToKeyAdd` | Aufgabe3/backup/root/redis-stable/src/db.c:1240-1245 | the index holds exactly the keys and the new one, in order |
| `Database.Store.SlotToKeyDel` | Aufgabe3/backup/root/redis-stable/src/db.c:1247-1251 | the index holds exactly the keys without the deleted one |
| `Database.Store.ExpireNow` | Aufgabe3/backup/root/redis-stable/src/db.c:896-930 | the store and the log afterwards are those of ExpireIfNeeded, indexes agreeing |
| `Database.Store.StoreKey` | Aufgabe3/backup/root/redis-stable/src/db.c:184-193 | the key has the value and no expire time; the assertion of dbAdd never fires |
| `Database.Store.ExpireGeneric` | Aufgabe3/backup/root/redis-stable/src/db.c:943-987 | the store and the log afterwards are those of the specification, indexes agreeing |
| `Database.Store.RenameGeneric` | Aufgabe3/backup/root/redis-stable/src/db.c:731-771 | the store and the log afterwards are those of the specification; the assertion of dbAdd never fires |
| `Database.Store.CountInSlot` | Aufgabe3/backup/root/redis-stable/src/db.c:1296-1323 | the number of keys of the slot, from the index |
| `Database.Store.DelKeysInSlot` | Aufgabe3/backup/root/redis-stable/src/db.c:1276-1294 | exactly the keys of the slot are removed, with their expires, and their number is returned |
| `BitCount.CountsOfWord` | Aufgabe3/backup/root/redis-stable/src/bitops.c:66-79 | the three steps on a word leave the number of set bits of each byte in that byte |
| `BitCount.TopByte` | Aufgabe3/backup/root/redis-stable/src/bitops.c:80-86 | multiplying by 0x01010101 adds up the four bytes in the top one, without carry for sums of seven words |
| `BitCount.Popcount` | Aufgabe3/backup/root/redis-stable/src/bitops.c:40-92 | for every length and alignment the result is the number of set bits |
| `BitSearch.ByteValue` | Aufgabe3/backup/root/redis-stable/src/bitops.c:101-179 | the bits of a byte, first one first, are its binary digits from 128 down |
| `BitSearch.LoadWord` | Aufgabe3/backup/root/redis-stable/src/bitops.c:141-148 | the word loaded holds the bits of the zero-padded string, the first one on top |
| `BitSearch.LastWord` | Aufgabe3/backup/root/redis-stable/src/bitops.c:151-176 | if the last word does not hold the bit, a set bit was looked for and the rest of the string is zero: the panic is not reached |
| `BitSearch.Bitpos` | Aufgabe3/backup/root/redis-stable/src/bitops.c:101-179 | for every length and alignment the first bit with the value; -1 if no bit is set; the length in bits if none is clear |
| `BitOperations.BitOp` | Aufgabe3/backup/root/redis-stable/src/bitops.c:620-733 | with or without the fast path, the result is as long as the longest string, and a bit of it is set if and only if every string has it (AND), some string has it (OR), an odd number of strings have it (XOR), the only string has it not (NOT) |
| `BitOperations.FastPath` | Aufgabe3/backup/root/redis-stable/src/bitops.c:653-716 | the bytes the fast path covers hold the fold of all strings, whose bits are those of FoldMeans |
| `BitOperations.FoldMeans` | Aufgabe3/backup/root/redis-stable/src/bitops.c:720-733 | bit by bit, the fold of the strings is their conjunction, disjunction, parity or negation, missing bytes being zero |
| `Bitfield.FieldIsLow` | Aufgabe3/backup/root/redis-stable/src/bitops.c:202-234 | a field that holds the bits of a value reads as the value modulo 2^bits |
| `Bitfield.FieldOfByte` | Aufgabe3/backup/root/redis-stable/src/bitops.c:222-234 | a field of eight bits at a byte boundary is that byte |
| `Bitfield.LowRange` | Aufgabe3/backup/root/redis-stable/src/bitops.c:222-234 | the low bits are below 2^bits |
| `Bitfield.SetUnsigned` | Aufgabe3/backup/root/redis-stable/src/bitops.c:202-215 | the field gets the bits of the value, and no other bit of the string changes |
| `Bitfield.GetUnsigned` | Aufgabe3/backup/root/redis-stable/src/bitops.c:222-234 | the loop reads the field |
| `Bitfield.StoredSigned` | Aufgabe3/backup/root/redis-stable/src/bitops.c:217-256 | a signed value of the range comes back from the field it was stored in |
| `Bitfield.GetPadded` | Aufgabe3/backup/root/redis-stable/src/bitops.c:1072-1104 | the nine-byte window gives the field of the zero-padded string, for any offset and up to 64 bits |
| `Bitfield.UnsignedCheckIsExact` | Aufgabe3/backup/root/redis-stable/src/bitops.c:281-316 | for a value in range the check passes exactly when the sum is in range; otherwise it supplies the congruent value or the bound that was crossed |
| `Bitfield.SignedCheckIsExact` | Aufgabe3/backup/root/redis-stable/src/bitops.c:318-368 | the same for signed fields |
| `Bitfield.SetSaturatesBelowIff` | Aufgabe3/backup/root/redis-stable/src/bitops.c:318-342 | setting a value below the signed range saturates at the lower bound if and only if its distance to the upper bound fits 64 bits; otherwise the upper bound is stored |
| `Bitfield.IncrUnsigned` | Aufgabe3/backup/root/redis-stable/src/bitops.c:1039-1070 | the exact sum when it fits, otherwise the congruent value, the bound or nothing, by policy; no other bit changes |
| `Bitfield.IncrSigned` | Aufgabe3/backup/root/redis-stable/src/bitops.c:1011-1038 | the same for signed fields |

## Left out

- Sockets, link buffers, gossip timing, failure detection, MIGRATE and pub/sub of the cluster: the protocol takes roles, failure flags and known nodes as changing freely between steps.
- CLUSTER RESET HARD, crashes and restarts: they undo epochs and votes; the model has neither, and packets may be lost, delayed and reordered but not duplicated.
- Gossip sections and the slot bitmaps in packet headers: the election model has the set of claimed slots only; slot claims are in SlotModel and SlotTable.
- ClusterSafety.ElectionSafety: takes the set of masters that vote as given; how nodes come to agree on it is not modelled.
- ClusterSafety.OneWinnerPerEpoch: that elections start with an empty count is sufficient for all runs; that it cannot be dropped is shown by one run, since a run that carries votes may still have one winner. The exact condition, for one election, is that of QuorumIsGenuineIff.
- ClusterCollision.CollisionsEnd: covers runs in which masters exchange PINGs and PONGs only, so that no other step changes an epoch.
- ClusterNode.Bump: the broadcast and the saving of the configuration are not modelled.
- SlotTable.Table: bitmaps are sequences of bits; their packing into bytes is not modelled. Failure reports and the list of slaves of a node are left out.
- SlotTable.Table.SetSlotNode: the config epoch bump it may trigger is in ClusterNode, not here.
- Dict.Dict: a chain is a sequence of entries with addresses, not linked cells, so aliasing of entries is modelled by addresses only; hash functions are arbitrary.
- Dict.NextPower: requires a size below LONG_MAX, above which the code returns a number that is not a power of two.
- DictScan.ScanCall: the callback gets the entries as a sequence.
- Random sampling, fingerprints, unsafe iterators, destructors and statistics of dict.c: they would only add easy members.
- AofCodec.LoadAppendOnlyFile: MULTI and EXEC, the lookup of command names and running the commands are not modelled; lengths above LONG_MAX and argument counts above INT_MAX are excluded where commands are written.
- AofRewrite.RewriteIsExact: a read of the data pipe that fails for another reason than an empty pipe is not modelled; the child's last read takes all that is there. AOF is on or waits for its rewrite throughout. Where commands are run again, those fed are not SELECT themselves, which is never propagated, and database numbers are not bounded by the configuration.
- AofFlush.FlushConserves: fsync and the latency monitor are left out.
- AofChunks.RewriteObject: encodings of elements, and the text of scores and integers, are taken as given bytes.
- Keyspace.Exec: one database, string values, no scripts and no slaves; each command reads the clock once, where the code reads it again when it feeds the log; times do not overflow 64 bits.
- Keyspace.Append: the limit of 512 MB on strings is not modelled.
- KeyIndex.CountKeysInSlot: the skiplist is a sorted sequence; keyHashSlot is an arbitrary function.
- Bitfield.IncrSigned: widths 1 to 63; at width 64 the shifts of the code are undefined by section 6.5.7 of ISO/IEC 9899:1999.
- BitCount.Popcount: the table of 256 counts is the function it tabulates.
- BitSearch.Bitpos: the long is 64 bits wide and is a sequence of bits.
- The Express applications, admin.py and the CA files: web and database plumbing over libraries that are not part of this model.
