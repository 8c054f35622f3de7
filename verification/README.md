# A verified model of the consensus layer and the services on it

This project models, in Dafny, the hard core of a distributed synchronisation system and proves what
that code keeps over whole runs. It follows the code branch by branch; where the code departs from the
Raft paper (Ongaro and Ousterhout, "In Search of an Understandable Consensus Algorithm", extended
version), the model departs with it.

Each object of the program is a class whose methods update its fields, and each method is proved
against a function on values. The theorems are about those functions, and about runs built from them.

- **Consensus** (`src/protocols/raft.py`). `raft_spec.dfy` has one function for every stretch of code
  between two real suspensions, `raft_node.dfy` the node object proved against them, and
  `raft_cluster.dfy` the cluster: all nodes, the elections still being counted, and a growing set of
  calls and answers, so that loss, delay, reordering and repetition are among the runs. `raft_effects.dfy`
  says field by field, without those functions, what each stretch leaves behind. On these stand
  election safety (`raft_elections.dfy`), log matching (`raft_log_matching.dfy`), quorum-backed commit
  (`raft_commit.dfy`), bounds on commit indices and callbacks (`raft_bounds.dfy`), the order of commit
  callbacks (`raft_apply.dfy`), convergence of replication
  (`raft_convergence.dfy`), repeated delivery and one vote per term (`raft_messages.dfy`), and the election
  restriction (`raft_restriction.dfy`). `raft_log.dfy` and `raft_median.dfy` hold the append loop and the
  commit rule's median. `raft_scenarios.dfy` builds runs step by step; `raft_stale_win.dfy` and
  `raft_stale_ack.dfy` use it to show what goes wrong without the hypotheses named below.
- **Locks** (`src/services/lock_manager.py`). `wait_graph.dfy` has the depth-first search for a
  deadlock, `lock_table.dfy` the lock table as a reading of the applied log and the waiting queue,
  `lock_spec.dfy` a manager on its consensus node as a machine, `lock_manager.dfy` the object, whose methods
  are the steps of that machine, and `lock_alone.dfy` lock compatibility when the node has no peers.
- **Queue** (`src/services/queue_service.py`). `hash_ring.dfy` and `hash_ring_object.dfy` have the
  consistent hash ring over an arbitrary hash with collisions; `queue_spec.dfy` one partition and its
  delivery bound; `queue_recovery.dfy` the durable copy with writes that take effect later; and
  `queue_object.dfy` the queue with its shared, mutable message objects.
- **Audit log** (`src/bonus/features.py`). `audit_chain.dfy` has the hash chain over two files, with the
  hash and the JSON library as functions of which only stated laws are used.

What is not part of the model enters as parameters: node identifiers, lock and message identifiers,
hashes, the order in which dictionaries and sets list their elements, the moments at which timers fire.

## What the code does not do

The proofs turned up places where the code falls short of what one would expect of it. They are
modelled as written.

- **Counting an old election.** The win test (`src/protocols/raft.py:141`) looks at the role only. A count
  left over from an older election can finish inside a newer candidacy and use votes of the older term.
  In every cluster of two nodes or more, any two of them can then lead one term and put different entries
  at one position (`RaftStaleWin.StaleCountMakesTwoLeaders`). Election safety, log matching, convergence in
  runs and quorum-backed commit assume `AllWinsCurrent`: at every win, the current term is the term set when
  that election was opened, which is a test the code could make.
- **Even clusters.** The commit rule takes `sorted[N // 2]`. It is backed by a quorum for all match
  indices exactly when N is odd (`RaftMedian.MedianCoversQuorumIffOdd`).
- **Acknowledgements of an older leadership.** Nothing ties an answer to the term its request was sent
  in. In every cluster of three a leader of term 3 can commit position 1 on a success that answers a request
  of its term 1, with nothing sent and nothing acknowledged in term 3
  (`RaftStaleAck.OldAcknowledgementCommits`). Quorum-backed commit is stated for runs in which a leader hears
  successes of its own term only (`AllAcksFresh`).
- **Position 0.** `match_index` starts at 0, so position 0 looks replicated at once. In every cluster of two
  nodes or more, with all wins and acknowledgements in order, a leader can commit and apply its first entry
  while every other log is empty (`RaftStaleAck.PositionZeroIsCommittedAlone`). Quorum-backed commit is
  stated for positions from 1 on.
- **The victim of a deadlock.** The list `detect_cycle` returns is a walk into a cycle. Its first client,
  the victim, is on the cycle exactly if it is also the last (`WaitGraphs.VictimIsOnLoopIff`), and
  need not be (`WaitGraphs.VictimMayBeInnocent`).
- **A service that never recorded.** With both files missing, the audit check answers false, so it
  answers true after a history exactly if something was recorded (`AuditChain.RecordedChainVerifies`).

## Model

| member | source | states |
|---|---|---|
| RaftNodes.RaftNode.constructor | src/protocols/raft.py:24-42 | a new node is a follower of term 0 with an empty log and a table entry for every peer |
| RaftNodes.RaftNode.ElectionTimeout | src/protocols/raft.py:101-106 | a timer opens an election unless the node leads or one is under way |
| RaftNodes.RaftNode.StartElection | src/protocols/raft.py:111-119 | an election raises the term by one and gives the node its own vote, unless one is under way |
| RaftNodes.RaftNode.RequestVoteMessage | src/protocols/raft.py:150-164 | the request carries the sender's term and the position and term of its last entry |
| RaftNodes.RaftNode.HearVoteResponse | src/protocols/raft.py:173-177 | a higher term in the answer ends the candidacy; the vote is what the answer says |
| RaftNodes.RaftNode.FinishElection | src/protocols/raft.py:137-147 | the node leads afterwards if and only if it led before, or was a candidate with a quorum of votes, its own included; the election is over in any case |
| RaftNodes.RaftNode.BecomeLeader | src/protocols/raft.py:183-198 | a new leader assumes every peer up to date with its log and nothing replicated |
| RaftNodes.RaftNode.BecomeFollower | src/protocols/raft.py:204-213 | stepping down forgets the election and keeps the term and the vote |
| RaftNodes.RaftNode.AppendEntriesMessage | src/protocols/raft.py:243-270 | the request carries all entries from the peer's next index on and the entry before them |
| RaftNodes.RaftNode.HearAppendResponse | src/protocols/raft.py:278-291 | a success moves the table forward and may commit; anything else adopts a higher term and goes one back |
| RaftNodes.RaftNode.UpdateCommitIndex | src/protocols/raft.py:298-308 | only a leader commits, and only an entry of its own term at the median position |
| RaftNodes.RaftNode.ApplyCommittedEntries | src/protocols/raft.py:317-325 | hands over exactly the entries between the last applied and the commit index, every read in range |
| RaftNodes.RaftNode.HandleMessage | src/protocols/raft.py:328-345 | new state and answer for every kind of message, after a higher term has been adopted |
| RaftNodes.RaftNode.HandleRequestVote | src/protocols/raft.py:348-372 | new vote and answer to a vote request |
| RaftNodes.RaftNode.HandleAppendEntries | src/protocols/raft.py:375-419 | new log, commit index, role and answer to an append request, with no test for lower terms |
| RaftNodes.RaftNode.MergeEntries | src/protocols/raft.py:392-403 | the loop that cuts and extends entry by entry computes the spliced log |
| RaftNodes.RaftNode.AppendEntry | src/protocols/raft.py:422-447 | a leader's log grows by one entry of its term; without peers it is committed inside the call |
| RaftNodes.TrueCountIsMultiplicity | src/protocols/raft.py:138 | the votes counted are the true ones among the results |
| RaftEffects.ElectionOpened | src/protocols/raft.py:116-119 | every field after an election is opened |
| RaftEffects.VoteRequestHandled | src/protocols/raft.py:328-372 | every field and the answer after a vote request, with the exact condition for a yes |
| RaftEffects.AppendRequestHandled | src/protocols/raft.py:375-419 | every field and the answer after an append request: accepted if and only if the entry before is there; the commit index becomes the smaller of the leader's and the last position if the leader's is beyond it, and stays otherwise; the callbacks catch up |
| RaftEffects.OtherMessageHandled | src/protocols/raft.py:328-345 | any other message is refused, and a higher term in it counts all the same |
| RaftEffects.VoteAnswerHeard | src/protocols/raft.py:173-177 | a higher term in the answer makes the node a follower of that term with its vote open, and nothing else changes anything |
| RaftEffects.RefusalHeard | src/protocols/raft.py:284-291 | a refusal adopts a higher term and moves the peer's next index one back, if it can |
| RaftEffects.SuccessHeard | src/protocols/raft.py:278-308 | a success moves the table; a leader commits if and only if the middle of any sorted arrangement of the table lies beyond its commit index, in its log, on an entry of its own term, and then exactly there |
| RaftEffects.VotesCounted | src/protocols/raft.py:137-147 | every field after the count, with the exact condition for leading; a new leader's table starts over for every peer |
| RaftEffects.CountIsTheClusters | src/protocols/raft.py:133-142 | if the answers gathered are true for exactly the peers noted, finishing the election is the cluster's counting step |
| RaftEffects.VoteRequestSent | src/protocols/raft.py:150-164 | the fields of a vote request |
| RaftEffects.AppendRequestSent | src/protocols/raft.py:243-270 | the entries sent continue the log from the peer's next index on, and the sender's commit index goes with them |
| RaftEffects.CommandSubmitted | src/protocols/raft.py:422-441 | one entry more, and without peers the commit index and the callbacks reach it |
| RaftLog.SplicedMeetsRequest | src/protocols/raft.py:384-403 | an accepted append keeps the old prefix; each entry after it is the old one until a term conflicts and the sent one from there on; an old suffix survives exactly if no term conflicted |
| RaftLog.SplicedIsIdempotent | src/protocols/raft.py:392-403 | merging the same entries twice is merging them once |
| RaftLog.SplicedAdoptsSource | src/protocols/raft.py:384-403 | under log matching the new log begins with the sender's whole log, and is either that or the old one |
| RaftLog.LateAppendChangesNothing | src/protocols/raft.py:392-403 | a late append from a shorter version of the same log changes nothing |
| RaftMedian.MedianIsReached | src/protocols/raft.py:303-304 | at least the upper half of the indices, middle included, reach the median |
| RaftMedian.MedianIsTheMiddle | src/protocols/raft.py:303-304 | the median is the middle element of any ascending arrangement of the indices |
| RaftMedian.MedianCoversQuorumIffOdd | src/protocols/raft.py:303-304 | the median is reached by a quorum for all indices if and only if the number of nodes is odd |
| RaftMedian.EvenMedianIsShort | src/protocols/raft.py:303-304 | in every even cluster some indices give a median that only half the nodes reach |
| RaftCluster.PeersAreTheOthers | src/protocols/raft.py:311-314 | the quorum size computed from the peer list is a majority of the cluster |
| RaftCluster.QuorumsMeet | src/protocols/raft.py:311-314 | any two quorums have a node in common |
| RaftMessages.RedeliveryIsHarmless | src/protocols/raft.py:328-419 | a message delivered again at once changes nothing and gets the same answer |
| RaftMessages.VotesAreKept | src/protocols/raft.py:328-372 | over every run terms never fall and a vote once cast stays for its term |
| RaftMessages.OneVotePerTerm | src/protocols/raft.py:348-372 | over every run a node says yes to at most one candidate per term |
| RaftRestriction.WinnerIsNotBehind | src/protocols/raft.py:150-181 | over every run, whoever is counted for a win in the current term had said yes to this node in this term, with a log not ahead of the one the node wins with |
| RaftElections.CurrentWinIsFirst | src/protocols/raft.py:137-142 | a win counted in the term of its election is the first win of that term, with a quorum of votes behind it |
| RaftElections.LeadersAreRemembered | src/protocols/raft.py:111-147 | over a run the leader of a term is never replaced by another |
| RaftElections.ElectionSafety | src/protocols/raft.py:111-147 | over every run and cluster size no two different nodes lead in one term, at one moment or at two |
| RaftStaleWin.StaleCountMakesTwoLeaders | src/protocols/raft.py:137-142 | in every cluster of two nodes or more, for any two nodes and two commands, there is a run at whose end both lead one term and their logs differ at a position where the terms agree; some win of it is not current |
| RaftLogMatching.MergeIsAnchored | src/protocols/raft.py:384-403 | an accepted append leaves a log that agrees, up to each entry, with the leader that created it |
| RaftLogMatching.TermLogsOnlyGrow | src/protocols/raft.py:428-435 | over a run the log of each term's leader only grows |
| RaftLogMatching.LogMatching | src/protocols/raft.py:243-270 | in every run, entries of one term at one position in the logs of two nodes, at any two moments, mean identical logs up to there |
| RaftApply.CallbacksSeePositionsInOrder | src/protocols/raft.py:317-325 | over every run each node hands over positions 0, 1, 2, ... once each, each entry carrying its position, and never takes one back |
| RaftApply.EachStepHandsOverNextEntries | src/protocols/raft.py:298-325 | what a step hands over are the node's own log entries at the next positions |
| RaftBounds.NobodyOutrunsTheLeaders | src/protocols/raft.py:298-325 | in every state of every run each node's callbacks have caught up with its commit index and gone exactly as far as it ever was, and nobody's commit index or callbacks are beyond the largest commit index a leader had reached |
| RaftBounds.LeadersCommitTheirOwnTerm | src/protocols/raft.py:306-308 | over every run a leader's commit index moves only to an entry of the leader's own term, with peers or without |
| RaftCommit.MedianHasQuorum | src/protocols/raft.py:298-308 | in an odd cluster the nodes whose table entry reaches the median form a quorum |
| RaftCommit.TableIsAcknowledged | src/protocols/raft.py:278-282 | up to where a leader's table says, the peer has held the leader's log when it acknowledged |
| RaftCommit.CommitIsQuorumBacked | src/protocols/raft.py:298-308 | when a leader's commit index moves to 1 or more, the entry there is of its own term and a quorum held its log up to there when acknowledging |
| RaftCommit.PositionZeroNeedsNoBacking | src/protocols/raft.py:278-308 | a leader commits and applies its first entry on a success for a request that did not carry it |
| RaftStaleAck.PositionZeroIsCommittedAlone | src/protocols/raft.py:278-308 | in every cluster of two nodes or more there is a run, with all wins and acknowledgements in order, in which a leader commits and applies its first entry while every other log is empty |
| RaftStaleAck.OldAcknowledgementCommits | src/protocols/raft.py:278-282 | in every cluster of three there is a run, with all wins in order, in which a leader commits position 1 on an old success, although nobody has acknowledged anything to it in its term and no other log begins with its own up to there |
| RaftConvergence.ExchangeAdvances | src/protocols/raft.py:243-291 | one exchange either brings the follower in line and tells the sender, or goes one entry back |
| RaftConvergence.ReplicationConverges | src/protocols/raft.py:243-291 | under log matching, `next_index + 1` exchanges make the follower's log begin with the sender's whole log |
| RaftConvergence.ReplicationConvergesInEveryRun | src/protocols/raft.py:243-291 | the same for any two nodes in any reachable cluster state |
| WaitGraphs.LockWaitGraph.AddEdge | src/services/lock_manager.py:25-30 | exactly the one edge is new |
| WaitGraphs.LockWaitGraph.RemoveEdges | src/services/lock_manager.py:33-39 | exactly the edges from and to the client go |
| WaitGraphs.Search.Dfs | src/services/lock_manager.py:49-64 | ends, and either finds a walk into a loop or leaves every node it visited ranked above its successors |
| WaitGraphs.LockWaitGraph.DetectCycle | src/services/lock_manager.py:42-72 | ends on every graph, answers None if and only if there is no cycle, and otherwise gives a walk whose last node occurs earlier in it |
| WaitGraphs.LassoHoldsCycle | src/services/lock_manager.py:60-61 | from the earlier occurrence of its last node on, the answer is a simple cycle |
| WaitGraphs.RankedIsAcyclic | src/services/lock_manager.py:63-64 | if every edge leads to a node finished earlier, there is no cycle |
| WaitGraphs.VictimIsOnLoopIff | src/services/lock_manager.py:263-265 | the victim is on the loop found if and only if it is also the last node of the answer |
| WaitGraphs.VictimMayBeInnocent | src/services/lock_manager.py:263-265 | a possible answer whose victim is on no cycle at all |
| LockTables.TableReadsTheLog | src/services/lock_manager.py:276-304 | a lock is held if and only if the last applied entry about it is an acquire, and then it is that entry's lock |
| LockTables.TableIgnoresOtherEntries | src/services/lock_manager.py:276-304 | entries about other things do not change what is held under an id |
| LockTables.GrantableMeans | src/services/lock_manager.py:220-238 | an exclusive lock may be taken if and only if nothing is held on the resource, a shared one if and only if nothing exclusive is, whatever is held on others |
| LockTables.WithoutKeepsOrder | src/services/lock_manager.py:291-295 | the waiters that stay keep their order |
| LockTables.WithoutOne | src/services/lock_manager.py:291-295 | a waiter goes if and only if it has the id |
| LockTables.CommitTouchesOneQueue | src/services/lock_manager.py:290-295 | only an acquire changes the waiting queue, and only that of its resource |
| LockTables.NoHeldLockIsQueued | src/services/lock_manager.py:147-151 | no held id is still queued, whatever is committed besides, if each id is queued before its acquire is committed and for the same resource |
| LockManagers.DistributedLockManager.HandleCommit | src/services/lock_manager.py:276-304 | the callback's new table and queue |
| LockManagers.DistributedLockManager.TryAcquire | src/services/lock_manager.py:220-238 | true if and only if everything held on the resource is shared and so is the request, or nothing is held |
| LockManagers.DistributedLockManager.GetLockHolder | src/services/lock_manager.py:241-246 | some exclusive owner, or None if and only if there is none |
| LockManagers.DistributedLockManager.Replicate | src/protocols/raft.py:422-447 | appending with callbacks is a step of the lock machine: node, table and queue, and the table stays the reading of the applied log |
| LockManagers.DistributedLockManager.Receive | src/protocols/raft.py:328-345 | handling a message and running the callbacks for what it commits is a step of the lock machine, and the table stays the reading of the applied log |
| LockManagers.DistributedLockManager.Hear | src/protocols/raft.py:278-291 | the same for hearing the answer to an append request |
| LockManagers.DistributedLockManager.AcquireLock | src/services/lock_manager.py:112-156 | granted, refused or waiting by table and role; the whole new state is a step of the lock machine; a waiting client gets an edge to an exclusive owner and to nobody else |
| LockManagers.DistributedLockManager.RetryAcquire | src/services/lock_manager.py:160-186 | one turn of the waiting loop is a step of the lock machine; on a grant exactly the client's edges go, otherwise none |
| LockManagers.DistributedLockManager.ReleaseLock | src/services/lock_manager.py:200-217 | released if and only if held and the node leads; the whole new state is a step of the lock machine |
| LockManagers.DistributedLockManager.BreakDeadlock | src/services/lock_manager.py:255-270 | nothing happens without a cycle; otherwise the first client of the walk loses one lock, if it has any and the node leads, and nothing else changes |
| LockSpec.CommitAllReads | src/services/lock_manager.py:276-304 | running the callbacks for more entries continues the reading of the applied log |
| LockSpec.CallbacksInOrder | src/protocols/raft.py:319-325 | the callbacks run once for each entry, in order |
| LockSpec.RunKeepsReading | src/services/lock_manager.py:276-304 | in every run of a manager, with peers or without, the table is the reading of what its node has applied |
| LockSpec.ReplicasAgree | src/services/lock_manager.py:276-304 | replicas that have applied the same entries hold the same locks, whatever brought each of them there |
| LocksAlone.LocksAreCompatible | src/services/lock_manager.py:112-238 | without peers, over all interleavings, each resource has at most one lock or only shared ones, the table is the reading of the applied log, and no held id is queued |
| HashRings.LastPlacedOwns | src/services/queue_service.py:31-40 | a position is on the ring if and only if a virtual node, numbered from 0 up to the count, lies there, and it belongs to the last listed node with one |
| HashRings.OwnerIsFirst | src/services/queue_service.py:43-56 | the owner of a key's home is the first node met clockwise |
| HashRings.OrderIsComplete | src/services/queue_service.py:59-83 | walking once around meets each node on the ring once |
| HashRings.OrderIsClockwise | src/services/queue_service.py:59-83 | of two nodes the one met first has a position that comes clockwise before every position of the other |
| HashRings.RemovalDisturbsOnlyItsKeys | src/services/queue_service.py:93-97 | removing a node changes the owner of no key it did not own, collisions included |
| HashRings.AdditionTakesOnlyForItself | src/services/queue_service.py:86-90 | after adding a node every key's owner is its old owner or the new node |
| HashRings.RemovalDropsFromOrder | src/services/queue_service.py:93-97 | without shared positions the order after a removal is the old order with the node dropped |
| HashRings.FirstOccurrenceGoes | src/services/queue_service.py:93-97 | removing a node takes its first occurrence off the list and nothing else |
| HashRings.ReplicasAreTheFirstNodes | src/services/queue_service.py:59-83 | replicas are distinct, as many as possible up to the count, a prefix of those for a larger count, the owner first |
| HashRingObjects.ConsistentHashRing.BuildRing | src/services/queue_service.py:31-40 | the nested loops fill the ring in list order |
| HashRingObjects.ConsistentHashRing.GetNode | src/services/queue_service.py:43-56 | the owner of the first position at or after the key, or else of the first of all; none if and only if the ring is empty |
| HashRingObjects.ConsistentHashRing.GetReplicas | src/services/queue_service.py:59-83 | the two passes give the first `count` nodes of the clockwise order, for every count |
| HashRingObjects.ConsistentHashRing.AddNode | src/services/queue_service.py:86-90 | the ring is rebuilt with the node last, unless it is there |
| HashRingObjects.ConsistentHashRing.RemoveNode | src/services/queue_service.py:93-97 | the ring is rebuilt without the first occurrence of the node |
| QueueSpec.BatchSize | src/services/queue_service.py:177-180 | a batch is as long as asked for or holds everything unacknowledged |
| QueueSpec.OldestAreTaken | src/services/queue_service.py:177-180 | a message is returned only if every older unacknowledged one is |
| QueueSpec.StaysUntilAcked | src/services/queue_service.py:237-266 | until an acknowledgement of it commits a message stays consumable and never gets more messages ahead of it |
| QueueSpec.DeliveredInTime | src/services/queue_service.py:173-191 | with d messages ahead, some round k with k * batch <= d returns the message, if each batch is acknowledged before the next consume, with anything else that spares the message happening anywhere in between |
| QueueRecovery.RunKeepsInv | src/services/queue_service.py:237-306 | over every run each unacknowledged message is stored as it is or about to be, each acknowledged one gone or about to be |
| QueueRecovery.StoreIsExact | src/services/queue_service.py:289-306 | with no write outstanding the store holds exactly the unacknowledged messages |
| QueueRecovery.LoadingAddsOnlyUnacked | src/services/queue_service.py:309-333 | whatever the records, loading adds only unacknowledged ones and takes nothing away |
| QueueRecovery.LoadingOne | src/services/queue_service.py:317-333 | one record is added if and only if it is unacknowledged and its id is new to its partition |
| QueueRecovery.LoadingInOrder | src/services/queue_service.py:313-333 | records are loaded in the order listed |
| QueueRecovery.RecoveryAtAnyTime | src/services/queue_service.py:289-333 | at any moment of a run, with writes outstanding, loading rebuilds exactly the stored records that are not acknowledged, each once, all of them published, among them every unacknowledged message whose writes have taken effect |
| QueueRecovery.RecoveryIsExact | src/services/queue_service.py:309-333 | loading the store into an empty node rebuilds each unacknowledged message once, with partition and delivery count, and nothing else; loading again adds nothing |
| Queues.DistributedQueue.CommitPublish | src/services/queue_service.py:238-253 | the message joins its partition, and with persistence the pending list and the scheduled writes |
| Queues.DistributedQueue.CommitAck | src/services/queue_service.py:255-265 | every message with the id is marked in all partitions and leaves the pending list |
| Queues.DistributedQueue.HandleCommit | src/services/queue_service.py:237-265 | with persistence the pending list stays, per partition and in order, the unacknowledged messages, even if ids repeat; with a store attached the commit is a step of the recovery machine |
| Queues.DistributedQueue.Consume | src/services/queue_service.py:173-191 | returns and counts the oldest unacknowledged messages, for negative batch sizes too, and is a step of the recovery machine |
| Queues.DistributedQueue.RunWrite | src/services/queue_service.py:289-306 | the oldest scheduled write takes effect with the message as it then is |
| Queues.DistributedQueue.SetPersistenceStore | src/services/queue_service.py:127-131 | attaching a store loads it when persistence is on |
| Queues.DistributedQueue.LoadPersisted | src/services/queue_service.py:309-333 | the loop over the records adds them one by one, skipping acknowledged and known ones |
| Queues.DistributedQueue.GetQueueDepth | src/services/queue_service.py:336-342 | the number of unacknowledged messages of the partition |
| Queues.DistributedQueue.GetStats | src/services/queue_service.py:345-355 | the totals count all messages and those not acknowledged; while the pending list is exact the latter is its length |
| Queues.FirstUnackedAreTaken | src/services/queue_service.py:179-180 | slicing the filtered list picks the messages the batch takes |
| Queues.TotalsAgree | src/services/queue_service.py:345-355 | summed over all partitions, unacknowledged messages are as many as pending ones |
| Queues.TotalsAreNumbers | src/services/queue_service.py:345-349 | the totals are the number of messages, and of those not acknowledged |
| AuditChain.BonusSecurityService.RecordHash | src/bonus/features.py:130-145 | the new digest, one more line in the log, and the digest file |
| AuditChain.BonusSecurityService.RecordAudit | src/bonus/features.py:147-160 | a record joins the list and the files, or nothing changes when auditing is off |
| AuditChain.BonusSecurityService.VerifyAuditChain | src/bonus/features.py:172-184 | true without paths, false if either file is missing, no answer on a line that is not JSON, and otherwise whether the digests agree |
| AuditChain.RecordingExtends | src/bonus/features.py:130-145 | recording keeps log and digest in step |
| AuditChain.RecordedChainVerifies | src/bonus/features.py:172-184 | from missing files, after any calls across restarts the check answers true if and only if something was recorded |
| AuditChain.BothFilesAreNeeded | src/bonus/features.py:175-176 | false if either file is missing, so true only if both exist |
| AuditChain.DeletionIsNoticed | src/bonus/features.py:172-184 | deleting either file, or both, after anything was recorded turns the answer from true to false |
| AuditChain.StripTakesOffWhite | src/bonus/features.py:184 | stripping takes white space off both ends and nothing else |
| AuditChain.UnterminatedLine | src/bonus/features.py:179 | a last line without a line break is a line like the others |
| AuditChain.ValuesJoin | src/bonus/features.py:179-182 | lines are read part by part, and a part that cannot be read spoils the whole |
| AuditChain.ValuesOfLine | src/bonus/features.py:180-182 | a blank line is skipped, a line that is not JSON cannot be read, any other holds its value |
| AuditChain.SameDigestCollides | src/bonus/features.py:134-135 | two different lists of payloads with one digest, one of them all objects, give two texts with one hash |
| AuditChain.DifferentHistoriesCollide | src/bonus/features.py:130-160 | two different histories of any lengths with the same digest file give two texts with one hash |
| AuditChain.AcceptedLogIsTheRecordedOne | src/bonus/features.py:172-184 | when the log is replaced by any text, the check answers true only if its lines hold the recorded values in order, or there is a collision; and it does answer true for those |

## Left out

- ElectionSafety: assumes that every win is counted in the term its election was opened in, a test the win check leaves out. In every cluster of two nodes or more it fails in some run without it; that each single stale count does harm is not claimed.
- LeadersAreRemembered: under the same assumption on wins.
- TermLogsOnlyGrow: under the same assumption on wins.
- LogMatching: under the same assumption on wins, and it fails in the same runs without it.
- WinnerIsNotBehind: for wins counted in the current term.
- ReplicationConvergesInEveryRun: under the same assumption on wins; `ReplicationConverges` itself needs only log matching between the two logs.
- CommitIsQuorumBacked: for clusters of odd size, positions from 1 on, and leaders that hear successes of their own term only; `EvenMedianIsShort`, `PositionZeroIsCommittedAlone` and `OldAcknowledgementCommits` show what happens otherwise, the first for the median alone.
- TableIsAcknowledged: under the same assumptions on wins and acknowledgements, and for positions from 1 on.
- DeliveredInTime: if every batch is acknowledged before the next consume of the same consumer, and for a message whose id no other message of the partition has; topics that share a partition are not told apart, and neither does the code.
- RecoveryIsExact: for a store attached from the start, persistence on, unique ids, and writes that take effect in the order they were scheduled.
- NoHeldLockIsQueued: assumes that `acquire_lock` queues an id, if at all, before it submits an acquire for it and for the same resource; for a node without peers this is proved (`LocksAreCompatible`), with peers it is an assumption about the entries of other nodes.
- LocksAreCompatible: for a node without peers. With peers the test for holders and the commit are separated by suspensions and the callback does not test again, so mutual exclusion is not claimed.
- RedeliveryIsHarmless: for a message delivered again before anything else happens at the node; what later deliveries do is covered by the runs of the cluster.
- State-machine safety and leader completeness (section 5.4 of the Raft paper): not true of the code as written, since append requests of lower terms are accepted.
- Liveness of elections: timers are free steps. Starting an election resets the timer whose task is running the election (`src/protocols/raft.py:127`), which cancels that task at its next suspension; such an election is one that is never counted.
- When requests are sent: the heartbeat loop, `_send_append_entries_to_all` and the vote round are replaced by sends at any moment, to any peer, more often than the code sends.
- Timeouts and failed connections: an answer that is never heard; `peers_connected` and the timestamp of a log entry are not modelled.
- Missing keys in the data of a message: requests are complete records, so the defaults of `get` do not appear. Conversion of messages to and from dictionaries is not modelled.
- Restarts of a consensus node: term, vote and log are kept in memory only (`src/protocols/raft.py:29-32`), so a node that restarts forgets them. Runs have no such step; with it, one vote per term, election safety and log matching need not hold.
- Python's recursion limit, which a long chain of waiting clients would reach in `detect_cycle`.
- AcquireLock: the identifier it draws is taken to be new, as the code's random identifiers are; a repeated one is not modelled.
- Peers with the same identifier, peer lists that differ from node to node, and dishonest senders.
- Wait edges that outlive the wait: edges are not removed on a timeout or a release, so a reported cycle need not be a deadlock; no claim is made about that.
- The waiting loop of `acquire_lock` as one method: its first attempt and one turn are methods, and its interleavings with other clients are steps in `LocksAlone`.
- `acquired_at`, expiry of locks, the lock callbacks, and `get_locks_for_resource`.
- Publishing through consensus, topics and the partition a topic hashes to: partitions are parameters. `message_acks` and `recover_from_failure`, which changes nothing but the ring.
- A record of the store that cannot be parsed, and records without a timestamp.
- Log and digest in one file: the two audit paths name different files, and writes to them do not fail half-way.
- JSON and SHA-256 themselves: `Lawful` states what is used of them: digests are 64 hexadecimal digits, parsing undoes printing, records print as objects on one line, and no value prints as a digest followed by an object. Details of a record are assumed to be values that printing and parsing give back.
- Encryption, roles and API keys, the byzantine agreement simulator, the region router, the load balancer, the cache service, HTTP, Redis, configuration and logging.
