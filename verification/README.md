# Verified models of Redis 3.2 and a red-black tree

A model, in Dafny 4.11, of the parts of this repository whose correctness rests on more than
one function: the configuration protocol of Redis Cluster, the incrementally rehashed
dictionary with its SCAN cursor and safe iterators, the append only file with its background
rewrite, the bitmap commands, the checksum of DUMP payloads, and the red-black tree of the common
library.  `dafny verify dfyconfig.toml` checks all of it.

| files | what they are about |
|---|---|
| RedBlackShape, RedBlackVerify, RedBlackTree, RedBlackDelete | the pointer code of rbtree.cpp on the heap, with parent links |
| CInt, Words, ScanOrder, BitReverse | C's int, machine words, and the order in which a SCAN cursor visits hash values |
| Options | a value that may be missing |
| HashTable, Dict, DictScan, DictIterator | two tables that stand for one map; SCAN and safe iteration over whole runs |
| ClusterNode, ClusterServer, ClusterNetwork, ClusterEffects, ClusterWitness | a node's reactions, the code that performs them, all nodes with the messages between them, and what each step changes |
| ClusterCollision, SlotOwnership, SlotTable, SlotRanges | configEpoch collisions, slots changing hands, the slot table in place, its text form |
| Decimal, AofFormat, AofReplay, AofDataset, AofWrite, AofProtocol, AofServer | the log as text, its replay, what commands do to a dataset, one flush, the log across rewrites, and the server with its child |
| BitField, BitPos, Popcount, BitOp | BITFIELD, BITPOS, BITCOUNT and BITOP |
| CrcTable, Checksum, DumpPayload | CRC-64 and the DUMP footer |

## Where the code falls short of what it promises

Each of these is kept as the code has it, with the exact condition under which it does what
is promised.

- Deleting the root of a red-black tree that has exactly one child leaves a red root:
  `RedBlackDelete.Delete` (if and only if) and `RedBlackDelete.DeleteRootOfTwo`.
- SCAN can miss a key that is there all the time when a table shrinks by more than half in
  the middle of a run.  The inner loop of dictScan counts the bits between the two masks in
  plain order, not in reversed order: `ScanOrder.NothingSkippedIff` (if and only if),
  `DictScan.UnguardedKeyIsMissed` and, on a dictionary, `DictScan.ScanWhileShrinking`.
- A slave counts ACKs of an older election while failover_auth_sent is 0, because
  failover_auth_count is reset before failover_auth_epoch moves on.  Two nodes cannot win the
  same epoch if together they counted fewer such ACKs than two for an even electorate, or one
  for an odd one: `ClusterNetwork.ElectionSafety`.  With that many they can, for every number
  of masters: `ClusterWitness.StrayAcksElectTwo`.
- flushAppendOnlyFile compares the number of bytes written with the length cast to int.
  Beyond INT_MAX bytes some outcome of write and ftruncate loses data:
  `AofWrite.ConservesIffShort`.
- The log is to hold absolute times only.  SET with EX or PX is logged as it is, so that its
  time to live begins again whenever the log is loaded; and the clock is read a second time
  when EXPIRE, PEXPIRE, SETEX or PSETEX is logged.  A command is restored exactly if and only if
  it is no such SET and the two readings agree: `AofDataset.RestoresIff`,
  `AofDataset.SetWithExpiryMoves`.
- clusterDelNodeSlots is described as returning the number of deleted slots; it returns the
  number of all slots.  That is right if and only if the node had all of them:
  `SlotTable.SlotTable.DelNodeSlots`; `SlotTable.DeletedIsNotCounted` is a node with one.
- A safe iterator is to withstand deletions.  It does if and only if the key deleted is not the
  one nextEntry was read from; otherwise dictNext would follow a freed pointer:
  `DictIterator.CutKeepsPlaceIff`, `DictIterator.DanglingNext`.
- clusterUpdateSlotsConfigWith follows a null pointer if and only if a slave that does not know
  its master hears of a claim to a free slot that it is not importing:
  `ClusterNode.FollowsNullIff`, `SlotTable.LonelySlave`.
- dictAdd holds the bucket in an int.  An absent key is added if and only if its bucket is at most
  INT_MAX; in bucket 2^32 - 1 it is taken for a present one, in the others it is written before
  the table: `Dict.Dict.Add`, `Dict.AbsentIsRefused`.
- dictResize casts the number of entries to int.  Beyond INT_MAX entries it refuses to resize:
  `Dict.Dict.Resize` (if and only if); `Dict.ShrinkRefused` is a table of 2^33 buckets with 2^31
  entries.
- startAppendOnly that opens the file but cannot start a rewrite closes it and leaves aof_fd set:
  `AofServer.Server.Start` (if and only if), `AofServer.StaleDescriptor`.
- BITFIELD SET with OVERFLOW SAT on a signed field stores the greatest number instead of the
  least one if and only if the value is below 2^(bits-1) - 2^63, because the distance to the
  upper end leaves the range of 64 bits: `BitField.PutCheckedSigned`,
  `BitField.SaturatesAtTheWrongEnd`.

## Assumptions

- Cluster: a node that waits for votes sees only masters of its epoch's electorate and a
  cluster size that is at least their number; nodes do not restart, there is no CLUSTER
  RESET and no TAKEOVER.  An ACK is delivered at most once; every other message may be
  lost, delayed, reordered and repeated.  Roles, failure flags, the slot table, importing
  slots and the cluster size may also change from outside at any time.  Epochs are natural
  numbers.  Names are numbers in the order memcmp gives them.  No node is in handshake.
  Where `ClusterNode.FollowsNull` holds the source has no defined behaviour; the model then
  binds the slots and goes on.
- Dictionary: the hash function is any function to 32 bits; key comparison is equality.  A table
  has at most 2^60 buckets, beyond which the number of bytes asked of zcalloc overflows
  (`Dict.AllocationFits`), and a dictionary at most 2^59 entries when one is added, so that
  their number can be doubled.  dictRehash is asked for at most INT_MAX / 10 buckets.  Where
  dictAdd writes outside its table, the model leaves the dictionary as it is.
- Append only file: a pipe is a queue of bytes, a file is a string of bytes (characters
  here), fork is atomic, fstat works after a rewrite.  A snapshot is any text that rebuilds
  the dataset at the fork.  Commands other than SET, SETEX, PSETEX, DEL and the four that set an
  expiry are any function of dataset, database and command, the same live and when the log is
  loaded, and are logged as they were called.  A key that has expired is deleted by a DEL of
  its own.  The server is not a slave.  The arguments of a command have been counted before it
  is executed.
- Numbers in text: long has 64 bits, strtol takes a number out of range to the nearest one
  within, and atoi is strtol cast to int.
- Integer overflow that C leaves undefined wraps around, in `AofWrite`, in `AofDataset` and in
  `BitField.CheckSigned`.
- A slot range in nodes.conf stays within the table; beyond it the source writes outside its
  arrays.

## Model

| member | source | states |
|---|---|---|
| `RedBlackVerify.BalancedIsEqualCounts` | project/common/src/rbtree.cpp:113-139 | equal black counts along all paths from the root to a leaf, as property 5 says, is the same as the recursive balance used in the proofs |
| `RedBlackVerify.VerifyProperty5Helper` | project/common/src/rbtree.cpp:119-139 | the recursive check of property 5 succeeds exactly when every path has the expected number of black nodes |
| `RedBlackVerify.VerifyProperty4` | project/common/src/rbtree.cpp:97-108 | the check succeeds exactly when no red node has a red child |
| `RedBlackVerify.VerifyProperties` | project/common/src/rbtree.cpp:62-139 | all run-time checks together accept exactly the red-black trees |
| `RedBlackShape.RotatedContents` | project/common/src/rbtree.cpp:207-233 | a rotation keeps the entries and their order |
| `RedBlackShape.ZipRedBlack` | project/common/src/rbtree.cpp:62-139 | a red-black subtree in a fitting context makes a red-black tree |
| `RedBlackShape.UnzipRedBlack` | project/common/src/rbtree.cpp:62-139 | and a red-black tree can be taken apart into such a context and subtree at any node |
| `RedBlackTree.RBTree.ReplaceNode` | project/common/src/rbtree.cpp:237-254 | exactly one link changes: the subtree at the node is replaced, all other links and parents stay |
| `RedBlackTree.RBTree.RotateLeft` | project/common/src/rbtree.cpp:207-217 | the heap shows the rotated shape, with all parent links right |
| `RedBlackTree.RBTree.RotateRight` | project/common/src/rbtree.cpp:222-233 | the mirror image |
| `RedBlackTree.RBTree.Insert` | project/common/src/rbtree.cpp:258-306 | for every valid tree and fresh node: the entry is added at its place, or the value of the one equal key is overwritten; links, order and all four checked properties hold again |
| `RedBlackTree.RBTree.InsertCase1` | project/common/src/rbtree.cpp:311-317 | from a red node whose only possible fault is a red parent, a red-black tree with the same entries; case 3 recurses two levels up, so it ends |
| `RedBlackTree.RBTree.InsertCase3` | project/common/src/rbtree.cpp:333-346 | a red uncle: recolouring moves the fault up without changing black counts |
| `RedBlackTree.RBTree.InsertCase4` | project/common/src/rbtree.cpp:351-364 | an inner red grandchild is turned outwards, with the same entries and black counts |
| `RedBlackTree.RBTree.InsertCase5` | project/common/src/rbtree.cpp:369-382 | an outer red grandchild: the last rotation restores every property |
| `RedBlackTree.RecoloredIsGood` | project/common/src/rbtree.cpp:333-346 | after recolouring, the grandparent is red, its subtree sound and the black height unchanged |
| `RedBlackTree.OuterIsGood` | project/common/src/rbtree.cpp:369-382 | after the rotation of case 5 the subtree is red-black with a black root and the same black height |
| `RedBlackDelete.LookupNode` | project/common/src/rbtree.cpp:173-193 | finds the one node with an equal key, or the gap where the key would be |
| `RedBlackDelete.Lookup` | project/common/src/rbtree.cpp:198-202 | the value of the one entry with an equal key, if there is one |
| `RedBlackDelete.MaximumNode` | project/common/src/rbtree.cpp:415-423 | the rightmost node, hence the last entry of the subtree |
| `RedBlackDelete.DeleteCase1` | project/common/src/rbtree.cpp:428-434 | a subtree one black node short is made good: balance restored in the whole tree, no sibling is ever null |
| `RedBlackDelete.DeleteCase2` | project/common/src/rbtree.cpp:439-451 | a red sibling is turned into the parent; the entries stay and a black sibling is left |
| `RedBlackDelete.DeleteCase3` | project/common/src/rbtree.cpp:456-466 | all black around: the sibling is painted red and the shortage moves up |
| `RedBlackDelete.DeleteCase4` | project/common/src/rbtree.cpp:471-481 | a red parent pays for the shortage |
| `RedBlackDelete.DeleteCase5` | project/common/src/rbtree.cpp:486-503 | a red inner nephew is turned outwards |
| `RedBlackDelete.DeleteCase6` | project/common/src/rbtree.cpp:508-524 | a red outer nephew: the last rotation restores all black counts |
| `RedBlackDelete.Delete` | project/common/src/rbtree.cpp:387-410 | removes exactly the entry with an equal key and keeps order, links, no red-red and equal black counts; the result passes verification if and only if the key is not that of a root with exactly one child |
| `RedBlackDelete.OneChildRootHasTwoEntries` | project/common/src/rbtree.cpp:402-407 | in a red-black tree such a root means that there are exactly two entries |
| `RedBlackDelete.DeleteRootOfTwo` | project/common/src/rbtree.cpp:402-407 | deleting the root's key from any tree of two nodes leaves a tree that fails verification |
| `RedBlackDelete.TwoNodes` | project/common/src/rbtree.cpp:258-306 | any two different keys make such a tree |
| `BitReverse.Rev` | project/network/redis/redis-3.2/src/dict.c:775-783 | the swapping of ever smaller blocks reverses the bits of a word, for every word size that is a power of two |
| `ScanOrder.ReverseBits` | project/network/redis/redis-3.2/src/dict.c:775-783 | bit i of the reversal is bit n - 1 - i |
| `ScanOrder.CursorStep` | project/network/redis/redis-3.2/src/dict.c:928-935 | setting the bits above the mask, reversing, adding one and reversing back is the carry from the most significant bit of the mask downwards |
| `ScanOrder.LoopTurn` | project/network/redis/redis-3.2/src/dict.c:921-925 | one turn of the inner loop over the larger table adds the size of the smaller one to the bucket, and the loop ends exactly when that overflows |
| `ScanOrder.NothingSkippedIff` | project/network/redis/redis-3.2/src/dict.c:869-938 | a call emits every hash value that its cursor passes over if and only if the cursor bits between the two masks have the form 0..01..1 |
| `ScanOrder.AllOnesTest` | project/network/redis/redis-3.2/src/dict.c:869-938 | that form is what y & (y + 1) == 0 tests |
| `ScanOrder.GuardHolds` | project/network/redis/redis-3.2/src/dict.c:869-938 | it holds with equal tables, with one twice the other, and whenever the cursor fits the smaller table |
| `Dict.Dict.Rehash` | project/network/redis/redis-3.2/src/dict.c:253-301 | any number of rehash steps leaves the map unchanged; a call with n that leaves something has moved n buckets or visited 10 * n empty ones and no more of either, and one that finishes had at most n left to move |
| `Dict.Dict.NonEmptyAhead` | project/network/redis/redis-3.2/src/dict.c:262-271 | the assertion in dictRehash: while entries are left, one lies at or after rehashidx |
| `Dict.Dict.RehashAll` | project/network/redis/redis-3.2/src/dict.c:253-301 | rehashing finishes within ht[0].size single steps |
| `Dict.Dict.RehashStep` | project/network/redis/redis-3.2/src/dict.c:334-336 | no entry moves while a safe iterator is open; otherwise rehashidx moves on or the rehash is finished |
| `Dict.Dict.Find` | project/network/redis/redis-3.2/src/dict.c:509-528 | at any point of a migration, the value the map has for the key |
| `Dict.Dict.Add` | project/network/redis/redis-3.2/src/dict.c:339-389 | at any point of a migration: an absent key is added if and only if its bucket is at most INT_MAX, taken for a present one in bucket UINT_MAX, and written outside the table in between; while an iterator is open, chains only grow at the front and at most an empty table is set up |
| `Dict.Dict.AddRaw` | project/network/redis/redis-3.2/src/dict.c:363-389 | the same conditions on the bucket known before the call |
| `Dict.Dict.KeyIndex` | project/network/redis/redis-3.2/src/dict.c:983-1005 | -1 for a present key, otherwise the bucket cast to int |
| `Dict.AbsentIsRefused` | project/network/redis/redis-3.2/src/dict.c:363-377 | an empty table of 2^32 buckets refuses, or writes before, every key with a hash value above INT_MAX |
| `Dict.Dict.Delete` | project/network/redis/redis-3.2/src/dict.c:429-464 | removes exactly the key; while an iterator is open, one entry is cut out of one chain and nothing else changes |
| `Dict.Dict.Expand` | project/network/redis/redis-3.2/src/dict.c:212-242 | sets up an empty table of the next power of two without moving an entry, under exactly the source's conditions, up to 2^60 buckets |
| `Dict.AllocationFits` | project/network/redis/redis-3.2/src/dict.c:212-228 | the number of bytes asked for fits a word if and only if the size asked for is at most 2^60 |
| `Dict.Dict.Resize` | project/network/redis/redis-3.2/src/dict.c:200-209 | resizes to the least power of two with room for all entries if and only if that is allowed, there are at most INT_MAX of them and the size differs |
| `Dict.ShrinkRefused` | project/network/redis/redis-3.2/src/dict.c:200-209 | a table of 2^33 buckets with 2^31 entries, for which 2^31 buckets would do, is not resized, for every hash function that stays within int |
| `Dict.Dict.ExpandIfNeeded` | project/network/redis/redis-3.2/src/dict.c:943-962 | a rehash is begun at bucket 0 if and only if the first table is full, or more than five times so while resizing is discouraged; the new table has the least power of two of buckets with room for twice the entries, and the expansion never fails |
| `Dict.FindNextPower` | project/network/redis/redis-3.2/src/dict.c:965-976 | the least power of two, from 4 on, that is not below the size |
| `HashTable.MoveRepresents` | project/network/redis/redis-3.2/src/dict.c:272-287 | moving one entry to the other table keeps the pair a representation of the same map, with right counters |
| `HashTable.FoundIff` | project/network/redis/redis-3.2/src/dict.c:509-528 | an entry found in either table is the map's entry for that key |
| `HashTable.MissingIf` | project/network/redis/redis-3.2/src/dict.c:509-528 | a key in neither chain is not in the map |
| `DictScan.Scan` | project/network/redis/redis-3.2/src/dict.c:869-938 | one call emits exactly the entries whose bucket it reaches, in both tables, and returns the next cursor |
| `DictScan.ScanLarger` | project/network/redis/redis-3.2/src/dict.c:911-925 | the loop goes through all expansions of the bucket from the cursor's own on, and no others |
| `DictScan.StableKeyIsEmitted` | project/network/redis/redis-3.2/src/dict.c:786-868 | a key found by every call of a run from cursor 0 to cursor 0 is emitted, whatever was added, deleted, rehashed or resized in between, if each call meets the guard |
| `DictScan.GrowingScanIsComplete` | project/network/redis/redis-3.2/src/dict.c:786-868 | and without looking at cursors: if the smaller table never shrinks from one call to the next, no such key is missed |
| `DictScan.ReturnsAfterSize` | project/network/redis/redis-3.2/src/dict.c:869-938 | without a resize no scan goes on for more calls than the smaller table has buckets, and the cursor comes back to 0 at that call and at no other |
| `DictScan.ScanAll` | project/network/redis/redis-3.2/src/dict.c:786-938 | the loop that calls dictScan until it returns 0 ends after so many calls, and every entry has been emitted |
| `DictScan.UnguardedKeyIsMissed` | project/network/redis/redis-3.2/src/dict.c:921-925 | a table of 16 buckets that starts shrinking to 4 in the middle of a run makes a stable key go missing |
| `DictScan.ScanWhileShrinking` | project/network/redis/redis-3.2/src/dict.c:869-938 | the same with the operations themselves: a dictionary of 16 buckets is resized after the first call, the cursor comes back to 0, and its only key was never emitted |
| `DictIterator.Iterator.Next` | project/network/redis/redis-3.2/src/dict.c:595-628 | returns the first of the keys to come, or nothing exactly when none is left; the first call counts the iterator |
| `DictIterator.Walk` | project/network/redis/redis-3.2/src/dict.c:595-628 | the loop over buckets and both tables |
| `DictIterator.RestAtStart` | project/network/redis/redis-3.2/src/dict.c:595-628 | an iterator that has not begun is to return every key of the map exactly once |
| `DictIterator.AddKeeps` | project/network/redis/redis-3.2/src/dict.c:363-389 | adding an entry, with or without a new table, changes nothing to come for other keys |
| `DictIterator.CutKeeps` | project/network/redis/redis-3.2/src/dict.c:429-464 | neither does deleting any entry but the one nextEntry points to |
| `DictIterator.CutKeepsPlaceIff` | project/network/redis/redis-3.2/src/dict.c:429-464 | in either table, the iterator can go on after a deletion if and only if the key is not that of nextEntry |
| `DictIterator.DeleteNext` | project/network/redis/redis-3.2/src/dict.c:595-628 | deleting that key leaves any open iterator at an entry that is gone |
| `DictIterator.DanglingNext` | project/network/redis/redis-3.2/src/dict.c:595-628 | a dictionary and an iterator for which this happens: two keys in one bucket |
| `DictIterator.SetUpKeeps` | project/network/redis/redis-3.2/src/dict.c:212-242 | nor the start of a resize |
| `DictIterator.ReturnedOnce` | project/network/redis/redis-3.2/src/dict.c:595-628 | in every interleaving that begins with dictNext, when dictNext has nothing left every key that stayed in the dictionary has been returned exactly once |
| `DictIterator.Iterate` | project/network/redis/redis-3.2/src/dict.c:595-628 | dictNext, dictAdd, dictDelete, dictResize and dictFind, called in any order after the first dictNext, make up such a run; when dictNext has returned NULL, every key that was there throughout has been returned exactly once |
| `ClusterServer.Cluster.SendFailoverAuthIfNeeded` | project/network/redis/redis-3.2/src/cluster.c:2531-2631 | votes under exactly the conditions that ClusterEffects.RequestEffect spells out, records the epoch, and changes nothing otherwise |
| `ClusterServer.Cluster.ReceiveRequest` | project/network/redis/redis-3.2/src/cluster.c:1952-1954 | the epochs of the header are taken over before the vote is considered |
| `ClusterServer.Cluster.ReceiveAck` | project/network/redis/redis-3.2/src/cluster.c:1955-1967 | an ACK is counted if it comes from a master with slots and is not of an older election |
| `ClusterServer.Cluster.HandleSlaveFailover` | project/network/redis/redis-3.2/src/cluster.c:2769-2936 | schedules an attempt, asks for votes in a new epoch, or takes over with a majority: which of them, for every combination of the timers |
| `ClusterServer.Cluster.Promote` | project/network/redis/redis-3.2/src/cluster.c:2731-2747 | the winner takes the role, all slots of its old master and the epoch of the election if its own is less, as ClusterEffects.WinEffect states for every run |
| `ClusterServer.Cluster.HandleCollision` | project/network/redis/redis-3.2/src/cluster.c:1062-1077 | the node with the smaller name, and only it, moves to a new epoch |
| `ClusterServer.Cluster.ProcessHeader` | project/network/redis/redis-3.2/src/cluster.c:1626-1639 | currentEpoch and the sender's configEpoch never go back |
| `ClusterNetwork.StepPreserves` | project/network/redis/redis-3.2/src/cluster.c:1568-2002 | every step of every node keeps the invariant on tables, messages, votes and counts |
| `ClusterNetwork.RunInv` | project/network/redis/redis-3.2/src/cluster.c:1568-2002 | it holds in every state of every run, with duplicated, reordered, stale and lost messages |
| `ClusterNetwork.AckIsCurrent` | project/network/redis/redis-3.2/src/cluster.c:1955-1967 | a vote that is counted while votes are awaited belongs to the present election |
| `ClusterNetwork.BackersDecide` | project/network/redis/redis-3.2/src/cluster.c:2531-2936 | whatever strays were counted: two winners of an epoch whose proper voters are together more than the electorate are the same node |
| `ClusterNetwork.ElectionSafety` | project/network/redis/redis-3.2/src/cluster.c:2531-2936 | two nodes never pass the quorum test for the same epoch, if together they counted fewer ACKs while not waiting for votes than two for an even electorate or one for an odd one |
| `ClusterNetwork.EpochsBounded` | project/network/redis/redis-3.2/src/cluster.c:1626-1639 | in every reachable state currentEpoch is at least every configEpoch in the table, and so in every message |
| `ClusterNetwork.VoteEpochIsNew` | project/network/redis/redis-3.2/src/cluster.c:2606-2627 | when a vote is granted its epoch exceeds that of every owner of a claimed slot in the voter's table |
| `ClusterNetwork.WinsAreRecorded` | project/network/redis/redis-3.2/src/cluster.c:2915-2930 | whoever takes over is among the winners that ElectionSafety speaks of |
| `ClusterNode.FollowsNullIff` | project/network/redis/redis-3.2/src/cluster.c:1485-1538 | clusterUpdateSlotsConfigWith follows a null pointer if and only if a slave that does not know its master hears another node claim a free slot that it is not importing |
| `ClusterWitness.StrayAcksElectTwo` | project/network/redis/redis-3.2/src/cluster.c:2842-2843 | this bound is exact: for every number of masters there is a reachable state in which two nodes have won the same epoch with just so many ACKs of an older election counted between a new schedule and the next request |
| `ClusterEffects.HeaderAnnounces` | project/network/redis/redis-3.2/src/cluster.c:2181-2227 | a header has the sender's currentEpoch and master; slots and configEpoch are the sender's own, or those of its master if it is a slave that knows it |
| `ClusterEffects.MessagesAnnounce` | project/network/redis/redis-3.2/src/cluster.c:2456-2466 | in every run whatever is sent has such a header, and an UPDATE the epoch and slots that its sender knows of the node it is about |
| `ClusterEffects.RequestEffect` | project/network/redis/redis-3.2/src/cluster.c:2531-2631 | a request is granted if and only if the voter is a master with slots, has not voted in this epoch, which is not older than its own, knows the candidate as a slave, flags its master as failed unless the request is forced, has not voted for that master lately, and knows no more recent owner of a claimed slot; only epochs change otherwise |
| `ClusterEffects.VotesGranted` | project/network/redis/redis-3.2/src/cluster.c:2531-2631 | in every run a delivered request adds exactly the vote that is due, in the epoch of the request |
| `ClusterEffects.VoteMeansFailure` | project/network/redis/redis-3.2/src/cluster.c:2570-2588 | so in every run a vote for a request that is not forced means that the voter flags the candidate's master as failed |
| `ClusterEffects.AckEffect` | project/network/redis/redis-3.2/src/cluster.c:1955-1967 | an ACK is counted if and only if it comes from a known master with slots and its epoch is not older than that of the election |
| `ClusterEffects.WinEffect` | project/network/redis/redis-3.2/src/cluster.c:2915-2930 | in every run a winner's configEpoch becomes that of its election if it was less and stays otherwise, it is a master with every slot of its old master, and no other entry and no other owner changes |
| `ClusterEffects.WinNeedsMajority` | project/network/redis/redis-3.2/src/cluster.c:2915-2915 | more than half of the cluster's size has been counted, in an election under way |
| `ClusterEffects.WinnersHoldDifferentEpochs` | project/network/redis/redis-3.2/src/cluster.c:2915-2930 | in every run two different nodes that win with few enough strays, each with a smaller configEpoch before, hold different configEpochs right after winning |
| `ClusterEffects.StartEffect` | project/network/redis/redis-3.2/src/cluster.c:2901-2912 | in every run votes are asked for in an epoch one above the greatest known |
| `ClusterEffects.ScheduleEffect` | project/network/redis/redis-3.2/src/cluster.c:2838-2866 | a new attempt begins with no votes and no request sent |
| `ClusterEffects.BumpEffect` | project/network/redis/redis-3.2/src/cluster.c:997-1013 | a new epoch is taken if and only if there is a greater one or the node has none |
| `SlotOwnership.DeliveryMovesUp` | project/network/redis/redis-3.2/src/cluster.c:1469-1509 | in every reachable state a message moves a bound slot only to a claimant with a greater configEpoch, and the epoch of an owner never goes back, unless the owner announces that it became a slave |
| `SlotOwnership.PingBinds` | project/network/redis/redis-3.2/src/cluster.c:1841-1862 | a master's ping binds every slot it claims that is free or whose owner is less recent, importing slots excepted |
| `SlotOwnership.PingReleases` | project/network/redis/redis-3.2/src/cluster.c:1799-1818 | a master that announces itself as a slave loses all its slots and its role |
| `SlotOwnership.UpdateBinds` | project/network/redis/redis-3.2/src/cluster.c:1979-2002 | an UPDATE with a newer epoch is believed: role, epoch and every slot the claim must win |
| `ClusterEffects.PingSlots` | project/network/redis/redis-3.2/src/cluster.c:1793-1862 | the owner of every slot after a ping: taken by a master that claims it if it is free or its owner less recent, given up by a master that became a slave, and as before otherwise |
| `ClusterEffects.PingRole` | project/network/redis/redis-3.2/src/cluster.c:1538-1542 | the receiver of a ping becomes a slave of the sender, with no importing slots left if it was a master, if and only if it or its master lost a slot to the sender and has none left; otherwise role and master stay |
| `ClusterEffects.PingTable` | project/network/redis/redis-3.2/src/cluster.c:1626-1906 | the epochs after a ping: the greater ones of both, and a new one for the receiver if and only if both are masters with the same epoch and the receiver has the smaller name; no third entry changes |
| `ClusterEffects.PingMaster` | project/network/redis/redis-3.2/src/cluster.c:1793-1827 | the master that a slave announces is taken over if it is known |
| `ClusterEffects.UpdateClaims` | project/network/redis/redis-3.2/src/cluster.c:1979-2002 | an UPDATE with a newer epoch than the one known moves exactly the slots that a ping with that claim would |
| `ClusterEffects.UpdateEffect` | project/network/redis/redis-3.2/src/cluster.c:1979-2002 | and makes the node it is about a master with that epoch and the receiver its slave if and only if it or its master is left without slots by it |
| `ClusterEffects.UpdateAboutMe` | project/network/redis/redis-3.2/src/cluster.c:1979-2002 | one about the receiver itself gives it the epoch and the role of a master and leaves the slots |
| `ClusterEffects.UpdateIsOld` | project/network/redis/redis-3.2/src/cluster.c:1979-1990 | one that is not newer changes nothing beyond the epochs in its header |
| `ClusterEffects.DeliveryRole` | project/network/redis/redis-3.2/src/cluster.c:1568-2002 | in every run, whatever message arrives, the receiver's role changes as just said and in no other case |
| `SlotOwnership.TakeOverClaims` | project/network/redis/redis-3.2/src/cluster.c:2731-2747 | failover hands over all of the old master's slots and leaves it none; the new configEpoch is that of the election, or the old one if that is not less |
| `ClusterCollision.BumpsBounded` | project/network/redis/redis-3.2/src/cluster.c:1062-1077 | under any schedule a master with k greater masters changes its configEpoch at most k times; the greatest never does |
| `ClusterCollision.ResolvedMeansDistinct` | project/network/redis/redis-3.2/src/cluster.c:1899-1906 | when no fresh ping would change an epoch, all masters have different ones |
| `ClusterCollision.HeldTogether` | project/network/redis/redis-3.2/src/cluster.c:1062-1077 | the epochs ever held by the k greatest masters are k at most |
| `SlotTable.SlotTable.AddSlot` | project/network/redis/redis-3.2/src/cluster.c:3483-3488 | binds a free slot, and bitmaps and counters stay in step with the table |
| `SlotTable.SlotTable.DelSlot` | project/network/redis/redis-3.2/src/cluster.c:3493-3500 | frees a slot; the assertion that the owner's bit was set never fails |
| `SlotTable.SlotTable.DelNodeSlots` | project/network/redis/redis-3.2/src/cluster.c:3504-3512 | the node keeps no slot and nobody else loses one; the number returned, that of all slots, is the number deleted if and only if the node had all of them |
| `SlotTable.DeletedIsNotCounted` | project/network/redis/redis-3.2/src/cluster.c:3502-3512 | a node with a single slot: one is deleted, 16384 are reported |
| `SlotTable.SlotTable.UpdateWith` | project/network/redis/redis-3.2/src/cluster.c:1491-1528 | moves exactly the slots that were free or whose claim is newer, and tells whether one of them was our own or our master's |
| `SlotTable.LonelySlave` | project/network/redis/redis-3.2/src/cluster.c:1485-1538 | a slave without a master and an empty table: any claim sets newmaster while curmaster is null |
| `SlotTable.SlotTable.ReplaceMaster` | project/network/redis/redis-3.2/src/cluster.c:2741-2747 | all slots of the old master change hands and it keeps none |
| `SlotTable.BindAgrees` | project/network/redis/redis-3.2/src/cluster.c:3442-3472 | a bit is set exactly when the table says so, and numslots counts the bits, through every change of one slot |
| `SlotRanges.PrintSlots` | project/network/redis/redis-3.2/src/cluster.c:3787-3805 | the ranges are ascending, have gaps between them and cover exactly the node's slots, a run up to the last slot included |
| `SlotRanges.ParseToken` | project/network/redis/redis-3.2/src/cluster.c:244-254 | a printed range is read back as the same range, for all numbers of type int |
| `SlotRanges.ParseTokens` | project/network/redis/redis-3.2/src/cluster.c:225-254 | and so is a whole list of them |
| `SlotRanges.LoadSlots` | project/network/redis/redis-3.2/src/cluster.c:225-256 | whatever the fields hold, exactly the free slots of their ranges are bound; a reversed range and a slot in migration bind none |
| `SlotRanges.MigrationBindsNothing` | project/network/redis/redis-3.2/src/cluster.c:228-243 | a field that begins with an opening bracket tells of a migration and binds no slot |
| `SlotRanges.FieldHolds` | project/network/redis/redis-3.2/src/cluster.c:244-254 | any other field binds the slots from the number before the dash to the one after it, or the one number if there is no dash |
| `SlotRanges.SaveAndLoad` | project/network/redis/redis-3.2/src/cluster.c:225-259 | for every assignment, printing all nodes and loading into an empty table restores every owner |
| `Decimal.ReadShow` | project/network/redis/redis-3.2/src/util.c:286-338 | a natural number that was written in decimal is read back, whatever follows it |
| `Decimal.ReadShowInt` | project/network/redis/redis-3.2/src/util.c:286-338 | and so is a negative one |
| `Decimal.ReadSigned` | project/network/redis/redis-3.2/src/aof.c:680-694 | blanks and a sign before a number are read as strtol reads them |
| `Decimal.OutOfRange` | project/network/redis/redis-3.2/src/aof.c:694-694 | a number that does not fit becomes the nearest one that does |
| `Decimal.ReadNothing` | project/network/redis/redis-3.2/src/aof.c:680-694 | what does not begin like a number is read as 0 |
| `Decimal.Digits10IsLength` | project/network/redis/redis-3.2/src/util.c:243-261 | digits10 counts the digits |
| `Decimal.LlToString` | project/network/redis/redis-3.2/src/util.c:286-338 | the buffer holds the decimal form of any number of 64 bits and a zero byte, and nothing else is written; 0 exactly when there is no room |
| `AofFormat.CatCommand` | project/network/redis/redis-3.2/src/aof.c:468-491 | appends the encoding of the command |
| `AofFormat.LoadAppendOnlyFile` | project/network/redis/redis-3.2/src/aof.c:632-729 | the loader's loops do what the specification LoadFile says, for every file, malformed or cut off, with numbers of any size |
| `AofFormat.LoadEncoded` | project/network/redis/redis-3.2/src/aof.c:658-729 | loading the log of any list of commands executes exactly that list |
| `AofFormat.LoadStops` | project/network/redis/redis-3.2/src/aof.c:744-784 | when a log is followed by what cannot be read as a command, its commands have been executed and the reason decides the outcome |
| `AofFormat.GarbageIsMalformed` | project/network/redis/redis-3.2/src/aof.c:678-678 | a line that does not begin with an asterisk is a format error, whether or not truncated files are to be loaded |
| `AofFormat.NoArgumentsIsMalformed` | project/network/redis/redis-3.2/src/aof.c:680-681 | so is a command without arguments |
| `AofFormat.BadArgumentIsMalformed` | project/network/redis/redis-3.2/src/aof.c:693-693 | and an argument without its length, after any number of good ones |
| `AofFormat.NegativeLengthIsExhausted` | project/network/redis/redis-3.2/src/aof.c:694-695 | a negative length cannot be allocated |
| `AofFormat.NulIsUnreadable` | project/network/redis/redis-3.2/src/aof.c:679-679 | a zero byte after the asterisk is a read error, except at the end of the file |
| `AofFormat.UnknownStops` | project/network/redis/redis-3.2/src/aof.c:710-715 | an unknown command ends the loading: neither it nor anything after it is executed |
| `AofFormat.EndIsSkipped` | project/network/redis/redis-3.2/src/aof.c:703-707 | the two bytes after an argument are skipped, whatever they are |
| `AofFormat.LongLine` | project/network/redis/redis-3.2/src/aof.c:663-672 | at most 127 characters of a line are taken |
| `AofFormat.LoadTruncatedLog` | project/network/redis/redis-3.2/src/aof.c:744-775 | loading any prefix of a log executes exactly the commands wholly inside it, never reports a format error, and valid_up_to is the end of the last of them |
| `AofFormat.ReadCutCommand` | project/network/redis/redis-3.2/src/aof.c:667-708 | a command cut off at any byte is recognised as such and never taken for another one |
| `AofFormat.CutLogIsLog` | project/network/redis/redis-3.2/src/aof.c:744-775 | what truncation leaves is the log of the commands executed |
| `AofReplay.ReplayAppend` | project/network/redis/redis-3.2/src/aof.c:530-544 | replaying a log is replaying its parts, each in the database the part before it ended in |
| `AofReplay.ReplayEntry` | project/network/redis/redis-3.2/src/aof.c:535-544 | what is fed for a command runs in its own database, whatever was selected before |
| `AofReplay.LoggedIsFixed` | project/network/redis/redis-3.2/src/aof.c:545-562 | what is logged for a command would be logged as it is at any later time |
| `AofReplay.SelectInAnyCase` | project/network/redis/redis-3.2/src/server.c:2151-2153 | SELECT is recognised in any letter case, and only moves to the database it names |
| `AofDataset.ExpiryIsExact` | project/network/redis/redis-3.2/src/aof.c:500-528 | the time in a translated command is read back as the one the command asks for, spelled out for each of EXPIRE, PEXPIRE, EXPIREAT, SETEX and PSETEX, if and only if that fits 64 bits |
| `AofDataset.MomentIsWhen` | project/network/redis/redis-3.2/src/db.c:950-1010 | and it is the moment at which the command itself lets the key expire, wrap-around included |
| `AofDataset.ExpireTranslates` | project/network/redis/redis-3.2/src/aof.c:548-551 | executing EXPIRE, PEXPIRE or EXPIREAT does what executing its log at any time does, in every dataset |
| `AofDataset.SetexTranslates` | project/network/redis/redis-3.2/src/aof.c:552-557 | the same for SETEX and PSETEX, whose log is a SET and a PEXPIREAT executed at any two times |
| `AofDataset.TranslationPreserves` | project/network/redis/redis-3.2/src/aof.c:530-562 | for every command and every dataset: replaying its log at any times does what the command did, if the clock has not moved between executing and logging a command relative to it, and a SET with a time to live is replayed at the time of its execution |
| `AofDataset.RestoresIff` | project/network/redis/redis-3.2/src/aof.c:530-562 | the log of a command restores what the command left, in every dataset and whenever it is loaded, if and only if it is not a SET with a time to live and, for a command relative to the clock, the clock has not moved between executing and logging it |
| `AofDataset.SetWithExpiryMoves` | project/network/redis/redis-3.2/src/t_string.c:68-95 | SET k v EX 10 at 1000 expires at 11000; its log, loaded at 2000, makes that 12000 |
| `AofDataset.AnyTime` | project/network/redis/redis-3.2/src/aof.c:717-722 | replaying a log twice gives the same dataset if the commands that depend on the clock are replayed at the same times |
| `AofDataset.PassedOnIsServed` | project/network/redis/redis-3.2/src/db.c:950-993 | what is passed on to the log for a call does what the call did, a DEL for an expiry in the past included, and a call that is not passed on did nothing |
| `AofDataset.PassedOnIsEnough` | project/network/redis/redis-3.2/src/server.c:2288-2371 | the commands passed on lead to the dataset that any series of calls has left |
| `AofDataset.PastIsGone` | project/network/redis/redis-3.2/src/db.c:967-986 | an expiry in the past deletes the key at once, and nothing else |
| `AofDataset.FutureIsSet` | project/network/redis/redis-3.2/src/db.c:986-993 | any other expiry is set on a key that is there, and nothing happens for a missing one |
| `AofDataset.SetIf` | project/network/redis/redis-3.2/src/t_string.c:79-95 | SET with NX stores if and only if the key is missing, with XX if and only if it is there, in any letter case |
| `AofDataset.SetFor` | project/network/redis/redis-3.2/src/t_string.c:68-95 | SET with EX or PX stores a value that expires after so many seconds or milliseconds, and nothing for a time that is not a positive number |
| `AofReplay.SelectText` | project/network/redis/redis-3.2/src/aof.c:538-542 | the text printed for SELECT is the encoding of that command |
| `AofWrite.FlushConserves` | project/network/redis/redis-3.2/src/aof.c:373-430 | with at most INT_MAX bytes in aof_buf, file and buffer together stay what was fed and aof_current_size stays the length of the file, after full, short and failed writes and working or failing truncation; the server gives up if and only if the write is not whole and every write is to be synced |
| `AofWrite.ConservesIffShort` | project/network/redis/redis-3.2/src/aof.c:361-424 | and this holds for all outcomes if and only if the buffer is not longer than INT_MAX, because of the casts to int |
| `AofProtocol.LogSwitched` | project/network/redis/redis-3.2/src/aof.c:1349-1353 | a snapshot followed by what was fed since the fork replays to the live dataset, because the diff begins with a SELECT |
| `AofProtocol.StepFaithful` | project/network/redis/redis-3.2/src/aof.c:1410-1588 | every event keeps what the log, the snapshot and the diff do to the dataset, command by command as module AofDataset executes them |
| `AofProtocol.StaysFaithful` | project/network/redis/redis-3.2/src/aof.c:1410-1588 | so does every history of commands, forks, switches, failures, stops and starts |
| `AofProtocol.LogRestores` | project/network/redis/redis-3.2/src/aof.c:632-729 | loading such a log rebuilds the dataset whenever it is loaded, if SETs with a time to live are replayed at the time of their execution |
| `AofServer.BufferAppend` | project/network/redis/redis-3.2/src/aof.c:137-171 | blocks are filled and added so that together they hold the old bytes and the new ones; new ones are of 10 MB and come only after full ones |
| `AofServer.SendBlocks` | project/network/redis/redis-3.2/src/aof.c:106-134 | what goes into the pipe and what stays in the blocks is what was there, in order; nothing goes after the stop flag, and otherwise it ends only with no block left or a write refused, after at least one byte for every write accepted |
| `AofServer.WriteBlocks` | project/network/redis/redis-3.2/src/aof.c:187-207 | all bytes in order if and only if every write is whole, -1 otherwise |
| `AofServer.CatLogged` | project/network/redis/redis-3.2/src/aof.c:545-562 | appends the encoding of the translation |
| `AofServer.CatExpireAt` | project/network/redis/redis-3.2/src/aof.c:500-528 | appends the encoding of PEXPIREAT with the absolute time, which AofDataset.MomentIsWhen ties to the command |
| `AofServer.Server.Feed` | project/network/redis/redis-3.2/src/aof.c:530-578 | the text for a command, translated as AofDataset.TranslationPreserves justifies, goes into aof_buf and into the blocks as the state demands |
| `AofServer.Server.Flush` | project/network/redis/redis-3.2/src/aof.c:306-430 | the write path on the server's own fields, for every buffer; nothing is lost with at most INT_MAX bytes, and the server gives up if and only if a write is not whole and every write is to be synced |
| `AofServer.Server.Pump` | project/network/redis/redis-3.2/src/aof.c:106-134 | child diff, pipe and blocks go on to be what was fed since the fork |
| `AofServer.Server.ChildRead` | project/network/redis/redis-3.2/src/aof.c:1014-1024 | one read by the child keeps that |
| `AofServer.Server.ParentAgree` | project/network/redis/redis-3.2/src/aof.c:1200-1217 | the stop flag is set before the acknowledgement can be read |
| `AofServer.Server.ChildFinish` | project/network/redis/redis-3.2/src/aof.c:1160-1169 | when the child is done, its file and the remaining blocks are the snapshot and all that was fed since the fork |
| `AofServer.Server.Fork` | project/network/redis/redis-3.2/src/aof.c:1291-1355 | a rewrite starts, with an empty diff and no selected database, if and only if no child is at work and pipes and process can be made |
| `AofServer.Server.RewriteDone` | project/network/redis/redis-3.2/src/aof.c:1410-1588 | the new file becomes the log if and only if the child succeeded, its file can be opened, every write is whole and the rename works; then it is the snapshot and the whole diff and aof_buf may be dropped, otherwise nothing is lost |
| `AofServer.Server.Stop` | project/network/redis/redis-3.2/src/aof.c:221-251 | switching off flushes and drops the rewrite |
| `AofServer.Server.Start` | project/network/redis/redis-3.2/src/aof.c:255-285 | switching on succeeds if and only if the file can be opened and a rewrite is started or has to wait for another child; aof_fd is left set although switched off exactly when only the rewrite fails |
| `AofServer.StaleDescriptor` | project/network/redis/redis-3.2/src/aof.c:255-285 | a server in that state |
| `AofServer.Server.Run` | project/network/redis/redis-3.2/src/aof.c:106-207 | any schedule of parent and child steps accounts for every byte |
| `AofServer.ServerRestores` | project/network/redis/redis-3.2/src/aof.c:1584-1588 | after any schedule, loading file and buffer, at any time, gives the dataset that the clients' calls have left, if SETs with a time to live are replayed at the time of their execution and the clock did not move between executing and logging a command relative to it |
| `BitField.SetUnsigned` | project/network/redis/redis-3.2/src/bitops.c:202-215 | the bits of the field, counted from the most significant bit of the first byte, become those of the value, all other bits of the string stay |
| `BitField.GetUnsigned` | project/network/redis/redis-3.2/src/bitops.c:222-234 | the slice of the big-endian number of all bytes that the field is |
| `BitField.MaskIsDigit` | project/network/redis/redis-3.2/src/bitops.c:227-229 | the masks pick the bits of a byte from the most significant one on: bit r is its binary digit 7 - r |
| `BitField.FieldIsSlice` | project/network/redis/redis-3.2/src/bitops.c:222-234 | a field is that slice: the big-endian number of the string divided by the power of two of the bits after the field, modulo that of its width |
| `BitField.StoredIsRead` | project/network/redis/redis-3.2/src/bitops.c:202-234 | what was stored is read back modulo the width |
| `BitField.StoredElsewhere` | project/network/redis/redis-3.2/src/bitops.c:202-215 | fields that do not overlap keep their numbers |
| `BitField.SignedRoundTrip` | project/network/redis/redis-3.2/src/bitops.c:236-256 | sign extension inverts the signed store for every number that fits |
| `BitField.CheckUnsigned` | project/network/redis/redis-3.2/src/bitops.c:281-316 | non-zero if and only if the value or the exact sum is out of range; wrapping is reduction modulo the width, saturation is clamping, also of a value that is already too large |
| `BitField.CheckSigned` | project/network/redis/redis-3.2/src/bitops.c:318-368 | the same for signed fields, with the direction of the overflow; for a value that is itself out of range, which end it saturates at |
| `BitField.IncrUnsigned` | project/network/redis/redis-3.2/src/bitops.c:1041-1069 | INCRBY stores and returns the sum, wrapped or clamped, or with FAIL changes nothing; no other bit changes |
| `BitField.IncrSigned` | project/network/redis/redis-3.2/src/bitops.c:1011-1040 | the same for signed fields |
| `BitField.PutChecked` | project/network/redis/redis-3.2/src/bitops.c:1054-1069 | SET of an unsigned field returns the old number and stores the new one cast to 64 bits, wrapped or clamped, or with FAIL changes nothing |
| `BitField.WrapIsModulo` | project/network/redis/redis-3.2/src/bitops.c:1054-1069 | with WRAP that is the number modulo the width, for negative ones too |
| `BitField.PutCheckedSigned` | project/network/redis/redis-3.2/src/bitops.c:1024-1040 | SET of a signed field stores the number wrapped or clamped if and only if it is not to saturate or is not below 2^(bits-1) - 2^63; below that it stores the greatest number of the field |
| `BitField.SaturatesAtTheWrongEnd` | project/network/redis/redis-3.2/src/bitops.c:318-345 | the least 64-bit number, saturated to a signed byte, becomes 127 |
| `BitField.GetThroughWindow` | project/network/redis/redis-3.2/src/bitops.c:1086-1103 | reading through the copy of nine bytes is reading the string continued with zeros |
| `BitField.GetSignedThroughWindow` | project/network/redis/redis-3.2/src/bitops.c:1086-1099 | the same for a signed field |
| `BitPos.BitPosition` | project/network/redis/redis-3.2/src/bitops.c:101-179 | the least position with the given bit, counted from the most significant bit of the first byte, -1 for a missing one, the end for a missing zero, at every alignment; the panic at the end is never reached |
| `BitPos.LoadWord` | project/network/redis/redis-3.2/src/bitops.c:147-155 | the last word is the big-endian number of the bytes left, padded with zeros |
| `Popcount.CountOnes` | project/network/redis/redis-3.2/src/bitops.c:40-92 | the number of ones in the string, at every length and alignment |
| `Popcount.TableCounts` | project/network/redis/redis-3.2/src/bitops.c:44 | every entry of bitsinbyte is the number of ones in its index |
| `Popcount.CountBlock` | project/network/redis/redis-3.2/src/bitops.c:54-86 | the number of ones in 28 bytes |
| `Popcount.WordLanes` | project/network/redis/redis-3.2/src/bitops.c:64-77 | the masked shifts and additions leave in each byte of a word the number of ones that were there |
| `Popcount.Gather` | project/network/redis/redis-3.2/src/bitops.c:78-84 | with at most 56 in each lane, the multiplication adds up the lanes without overflow |
| `BitOp.Compute` | project/network/redis/redis-3.2/src/bitops.c:609-721 | as long as the longest string; each byte is the operator applied over all strings, continued with zeros, so that bit by bit AND is 1 where all strings have 1, OR where some have, XOR where an odd number have and NOT where none has |
| `BitOp.FoldedBit` | project/network/redis/redis-3.2/src/bitops.c:709-721 | that meaning of each operator, bit by bit, for any number of strings |
| `BitOp.FastBlock` | project/network/redis/redis-3.2/src/bitops.c:642-707 | the path over four words at a time gives the same bytes |
| `BitOp.JoinBoth` | project/network/redis/redis-3.2/src/bitops.c:652-695 | an operator on words is the operator on their bytes |
| `CrcTable.TableIsPolynomial` | project/network/redis/redis-3.2/src/crc64.c:42-171 | every entry of crc64_tab is what eight bits of division by the reflected polynomial of CRC-64-Jones make of its index |
| `CrcTable.PolyIsJones` | project/network/redis/redis-3.2/src/crc64.c:1-11 | the polynomial is the one of the specification with its bits in reverse order |
| `CrcTable.TopDetermines` | project/network/redis/redis-3.2/src/crc64.c:42-171 | no two entries of crc64_tab have the same topmost byte |
| `Checksum.StepInjective` | project/network/redis/redis-3.2/src/crc64.c:176-179 | from the new register and the byte the old register can be told |
| `Checksum.WindowInjective` | project/network/redis/redis-3.2/src/crc64.c:173-181 | different eight bytes in a row leave different registers |
| `Checksum.BurstDetected` | project/network/redis/redis-3.2/src/crc64.c:173-181 | strings that differ in eight bytes in a row leave different registers |
| `DumpPayload.CrcLaws` | project/network/redis/redis-3.2/src/crc64.c:42-181 | CRC-64-Jones with this table has the properties these results rest on |
| `DumpPayload.Crc64` | project/network/redis/redis-3.2/src/crc64.c:173-181 | the loop computes the fold of the register step |
| `DumpPayload.CheckValue` | project/network/redis/redis-3.2/src/crc64.c:1-11 | the checksum of the digits from 1 to 9 is the check value of CRC-64-Jones, 0xe9c6d914c4b8d9ca |
| `DumpPayload.FooterIsGood` | project/network/redis/redis-3.2/src/cluster.c:4494-4511 | a checksum of zero over the whole string means that its last eight bytes are the checksum of the others |
| `DumpPayload.CreateDumpPayload` | project/network/redis/redis-3.2/src/cluster.c:4461-4488 | the body, the version 7 in little endian and the CRC-64 of both in little endian; every such payload is accepted |
| `DumpPayload.VerifyDumpPayload` | project/network/redis/redis-3.2/src/cluster.c:4494-4511 | accepts exactly the strings of at least ten bytes whose version, read in little endian, is at most 7 and whose last eight bytes are the CRC-64 of all before them in little endian |
| `DumpPayload.ShortChangeIsRejected` | project/network/redis/redis-3.2/src/cluster.c:4494-4511 | an accepted payload that is changed within any eight bytes in a row, one byte included, is rejected |

## Left out

- Sockets, event loops, fork, rename and fsync, and the Windows variants of the AOF code.
- Clocks: delays, slave rank, voted_time and timeouts only decide when something happens, so they are parameters or left open.
- Failure detection, gossip about third nodes, handshakes, slave migration and manual failover beyond its flag in a vote request.
- PING and UPDATE handling is modelled on values (`ClusterNode.HandlePing`, `ClusterNode.HandleUpdate`); only its slot loop is a method that works in place, in `SlotTable`.
- CLUSTER RESET, TAKEOVER, restart from disk during an election, and SETSLOT to arbitrary nodes.
- Deletion of the keys of lost slots in clusterUpdateSlotsConfigWith.
- dictGetRandomKey, dictGetSomeKeys, unsafe iterators with their fingerprint, dictReplace and dictEmpty.
- Iterators while dictRehash is called directly; only the steps that other operations take are covered.
- MULTI and EXEC in the log, and commands that rewrite themselves before they are logged, other than those that set an expiry.
- What a rewrite writes for each type of object; the snapshot is taken as given.
- The postponement of a flush while an fsync is pending, and the fsync itself: neither changes what is in the file or the buffer.
- Bit fields of 64 bits, where shifts leave the range that C defines.
- The tables that migrating and importing slots in nodes.conf go to, and how a line is split into fields.
- LogAnalyzer, Tester and the other parts of the common library.
- AofServer.Server.Run: a schedule does not flush more than INT_MAX bytes at once to a file that is on, since AofWrite.ConservesIffShort shows that this may lose some.
- AofServer.ServerRestores: with the clock read once for executing and logging, and SETs with a time to live replayed when they were executed; AofDataset.RestoresIff shows that both are needed.
- Dict.Dict.Expand: up to 2^60 buckets; beyond that the allocation at line 228 gets too few bytes and the table is not one.
- Dict.Dict.Add: up to 2^59 entries, for the same reason.
- ClusterNetwork.ElectionSafety: under the assumptions on the electorate above.
- ClusterCollision.BumpsBounded: for runs in which all nodes stay masters and nobody asks for a new epoch by hand.
- DictIterator.Iterate: runs begin with the first dictNext, since an iterator that is not yet counted does not keep entries from moving; no key is added that dictAdd would write outside the table.
- DumpPayload.CreateDumpPayload: the serialisation of the object, which is taken as given.
