/** One lock manager on its consensus node as a machine: what its calls, its callbacks and the node's
    own steps do to the table, the waiting queue and the node. */
module LockSpec {
  import opened CoreTypes
  import opened RaftLog
  import opened RaftSpec
  import opened LockTables

  /** The table after the commit callbacks for `entries`. */
  function CommitAll(t: Table, entries: Log): Table
    decreases |entries|
  {
    if entries == [] then t else CommitAll(Committed(t, entries[0].command), entries[1..])
  }

  function QueueAll(q: Queue, entries: Log): Queue
    decreases |entries|
  {
    if entries == [] then q else QueueAll(QueueCommitted(q, entries[0].command), entries[1..])
  }

  /** What was handed to the callbacks between two states of a node. */
  function Handed(x: Node, y: Node): Log {
    if |x.applied| <= |y.applied| then y.applied[|x.applied|..] else []
  }

  datatype Request = Request(resource: string, lockType: LockType, client: string, ttl: real)

  /** `waiting` holds the calls in their waiting loop, `used` every id ever drawn. */
  datatype System = System(node: Node, table: Table, queue: Queue, waiting: map<string, Request>, used: set<string>)

  function Start(id: NodeId, peers: seq<NodeId>): System {
    System(Fresh(id, peers), map[], map[], map[], {})
  }

  datatype Step =
    | Acquire(id: string, request: Request)
    | Retry(waiter: string)
    | GiveUp(waiter: string)
    | Release(lockId: string)
    | OtherEntry(command: Command)
    | Receive(message: Message)
    | Hear(peer: NodeId, sent: Message, answer: Message)
    | Stand
    | HearVoteAnswer(vote: Message)
    | FinishElection(granted: nat)

  function Entry(id: string, r: Request): Command {
    LockAcquire(id, r.resource, r.client, r.lockType, r.ttl)
  }

  /** The node moves, and the callbacks run for what it hands over. */
  function Moved(s: System, node: Node): System {
    s.(node := node,
       table := CommitAll(s.table, Handed(s.node, node)),
       queue := QueueAll(s.queue, Handed(s.node, node)))
  }

  /** `append_entry` with its callbacks; refused unless the node leads. */
  function Append(s: System, c: Command): System {
    if s.node.role != Role.Leader then s else Moved(s, Submit(s.node, c))
  }

  predicate Enabled(s: System, step: Step) {
    match step
    case Acquire(id, _) => id !in s.used
    case Retry(id) => id in s.waiting
    case GiveUp(id) => id in s.waiting
    case OtherEntry(c) => !c.LockAcquire? && !c.LockRelease?
    case Hear(peer, m, _) => s.node.Tracks() && peer in s.node.peers && m.AppendEntries?
    case _ => true
  }

  function Apply(s: System, step: Step): System
    requires Enabled(s, step)
  {
    match step
    case Acquire(id, r) =>
      var t := s.(used := s.used + {id});
      if Grantable(s.table, r.resource, r.lockType) then Append(t, Entry(id, r))
      else t.(waiting := s.waiting[id := r], queue := Enqueued(s.queue, r.resource, Waiter(r.client, r.lockType, id)))
    case Retry(id) =>
      var r := s.waiting[id];
      if Grantable(s.table, r.resource, r.lockType) && s.node.role == Role.Leader
      then Append(s.(waiting := s.waiting - {id}), Entry(id, r)) else s
    case GiveUp(id) => s.(waiting := s.waiting - {id})
    case Release(id) => if id in s.table then Append(s, LockRelease(id)) else s
    case OtherEntry(c) => Append(s, c)
    case Receive(m) => Moved(s, HandleMessage(s.node, m).0)
    case Hear(peer, m, answer) => Moved(s, HearAppend(s.node, peer, m, answer))
    case Stand =>
      if s.node.role != Role.Leader && !s.node.electing then s.(node := OpenElection(s.node)) else s
    case HearVoteAnswer(answer) => s.(node := HearVote(s.node, answer))
    case FinishElection(granted) => s.(node := CountVotes(s.node, granted))
  }

  predicate ValidRun(start: System, states: seq<System>, steps: seq<Step>) {
    && |states| == |steps| + 1 && states[0] == start
    && forall i | 0 <= i < |steps| :: Enabled(states[i], steps[i]) && states[i + 1] == Apply(states[i], steps[i])
  }

  // ---------------------------------------------------------------- callbacks and the reading of the log

  /** The callbacks run once for each entry, in order. */
  lemma {:induction false} CallbacksInOrder(t: Table, q: Queue, entries: Log, e: LogEntry)
    ensures CommitAll(t, entries + [e]) == Committed(CommitAll(t, entries), e.command)
    ensures QueueAll(q, entries + [e]) == QueueCommitted(QueueAll(q, entries), e.command)
    decreases |entries|
  {
    if entries == [] {
      assert [] + [e] == [e] && [e][1..] == [];
    } else {
      assert (entries + [e])[1..] == entries[1..] + [e];
      CallbacksInOrder(Committed(t, entries[0].command), QueueCommitted(q, entries[0].command), entries[1..], e);
    }
  }

  /** Running the callbacks for more entries continues the reading of the applied log. */
  lemma {:induction false} CommitAllReads(a: Log, b: Log)
    ensures CommitAll(TableOf(a), b) == TableOf(a + b)
    decreases |b|
  {
    if b == [] {
      assert a + b == a;
    } else {
      assert (a + [b[0]])[..|a|] == a;
      assert a + b == (a + [b[0]]) + b[1..];
      CommitAllReads(a + [b[0]], b[1..]);
    }
  }

  /** What a node has handed to its callbacks is never taken back. */
  predicate Extends(x: Node, y: Node) {
    x.applied <= y.applied
  }

  lemma HandedIsTheRest(x: Node, y: Node)
    requires Extends(x, y)
    ensures y.applied == x.applied + Handed(x, y)
  {
  }

  lemma SubmittingExtends(x: Node, c: Command)
    ensures Extends(x, Submit(x, c))
  {
  }

  lemma FollowingExtends(x: Node, leaderCommit: Position)
    ensures Extends(x, FollowCommit(x, leaderCommit))
  {
  }

  lemma HandlingExtends(x: Node, m: Message)
    ensures Extends(x, HandleMessage(x, m).0)
  {
    hide Spliced, FollowCommit;
    if m.AppendEntries? && Accepts(x.log, m) {
      var y := AdoptTerm(x, m.term);
      var z := (if y.role != Follower then StepDown(y, Some(m.sender)) else y).(leaderId := Some(m.sender));
      FollowingExtends(z.(log := Spliced(x.log, m.prevLogIndex + 1, m.entries)), m.leaderCommit);
    }
  }

  lemma UpdatingExtends(x: Node)
    requires x.Tracks()
    ensures Extends(x, UpdateCommitIndex(x))
  {
  }

  lemma HearingExtends(x: Node, peer: NodeId, m: Message, answer: Message)
    requires x.Tracks() && peer in x.peers && m.AppendEntries?
    ensures Extends(x, HearAppend(x, peer, m, answer))
  {
    hide UpdateCommitIndex;
    if answer.AppendResponse? && answer.success {
      var matched: nat := Max(x.matchIndex[peer], m.prevLogIndex + |m.entries|);
      UpdatingExtends(x.(matchIndex := x.matchIndex[peer := matched],
                         nextIndex := x.nextIndex[peer := matched + 1]));
    }
  }

  /** The table is the reading of what the node has applied. */
  predicate Reads(s: System) {
    s.table == TableOf(s.node.applied)
  }

  lemma MovingKeepsReading(s: System, node: Node)
    requires Reads(s) && Extends(s.node, node)
    ensures Reads(Moved(s, node))
  {
    HandedIsTheRest(s.node, node);
    CommitAllReads(s.node.applied, Handed(s.node, node));
  }

  lemma AppendingKeepsReading(s: System, c: Command)
    requires Reads(s)
    ensures Reads(Append(s, c))
  {
    hide Submit;
    SubmittingExtends(s.node, c);
    if s.node.role == Role.Leader { MovingKeepsReading(s, Submit(s.node, c)); }
  }

  lemma StepKeepsReading(s: System, step: Step)
    requires Reads(s) && Enabled(s, step)
    ensures Reads(Apply(s, step))
  {
    hide TableOf, Append, Moved, HandleMessage, HearAppend, Grantable;
    match step
    case Acquire(id, r) => AppendingKeepsReading(s.(used := s.used + {id}), Entry(id, r));
    case Retry(id) => AppendingKeepsReading(s.(waiting := s.waiting - {id}), Entry(id, s.waiting[id]));
    case GiveUp(_) =>
    case Release(id) => AppendingKeepsReading(s, LockRelease(id));
    case OtherEntry(c) => AppendingKeepsReading(s, c);
    case Receive(m) => HandlingExtends(s.node, m); MovingKeepsReading(s, HandleMessage(s.node, m).0);
    case Hear(peer, m, answer) =>
      HearingExtends(s.node, peer, m, answer);
      MovingKeepsReading(s, HearAppend(s.node, peer, m, answer));
    case Stand =>
    case HearVoteAnswer(_) =>
    case FinishElection(_) =>
  }

  /** In every run of a manager, with peers or without, the table is the reading of the applied log. */
  lemma {:induction false} RunKeepsReading(id: NodeId, peers: seq<NodeId>, states: seq<System>, steps: seq<Step>,
                                           k: nat)
    requires ValidRun(Start(id, peers), states, steps) && k < |states|
    ensures Reads(states[k])
  {
    hide Apply, Enabled;
    if k > 0 {
      RunKeepsReading(id, peers, states, steps, k - 1);
      StepKeepsReading(states[k - 1], steps[k - 1]);
    }
  }

  /** Replicas that have applied the same entries hold the same locks, whatever calls and messages
      brought each of them there. */
  lemma ReplicasAgree(a: NodeId, aPeers: seq<NodeId>, aStates: seq<System>, aSteps: seq<Step>, i: nat,
                      b: NodeId, bPeers: seq<NodeId>, bStates: seq<System>, bSteps: seq<Step>, j: nat)
    requires ValidRun(Start(a, aPeers), aStates, aSteps) && i < |aStates|
    requires ValidRun(Start(b, bPeers), bStates, bSteps) && j < |bStates|
    requires aStates[i].node.applied == bStates[j].node.applied
    ensures aStates[i].table == bStates[j].table
  {
    hide ValidRun;
    RunKeepsReading(a, aPeers, aStates, aSteps, i);
    RunKeepsReading(b, bPeers, bStates, bSteps, j);
  }
}
