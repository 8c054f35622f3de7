/** One consensus node as a value, and what each uninterrupted stretch of its code does to it. */
module RaftSpec {
  import opened CoreTypes
  import opened RaftLog
  import opened RaftMedian

  datatype Role = Follower | Candidate | Leader

  datatype Message =
    | RequestVote(sender: NodeId, term: nat, lastLogIndex: Position, lastLogTerm: nat)
    | VoteResponse(sender: NodeId, term: nat, voteGranted: bool)
    | AppendEntries(sender: NodeId, term: nat, prevLogIndex: Position, prevLogTerm: nat,
                    entries: Log, leaderCommit: Position)
    | AppendResponse(sender: NodeId, term: nat, success: bool, matchIndex: Position)
    | Unsupported(sender: NodeId, term: nat)

  /** `applied` lists the entries handed to the commit callbacks, oldest first. */
  datatype Node = Node(
    id: NodeId, peers: seq<NodeId>,
    term: nat, votedFor: Option<NodeId>, log: Log,
    commitIndex: Position, lastApplied: Position, role: Role, leaderId: Option<NodeId>,
    nextIndex: map<NodeId, nat>, matchIndex: map<NodeId, nat>,
    electing: bool, applied: Log)
  {
    /** The leader tables have an entry for every peer, from the constructor on. */
    predicate Tracks() {
      forall p | p in peers :: p in nextIndex && p in matchIndex
    }
  }

  /** Same node, same peers, and still a table entry for each of them. */
  predicate Keeps(x: Node, y: Node) {
    y.id == x.id && y.peers == x.peers && (x.Tracks() ==> y.Tracks())
  }

  function ForAllPeers(peers: seq<NodeId>, v: nat): map<NodeId, nat> {
    map p | p in peers :: v
  }

  function Fresh(id: NodeId, peers: seq<NodeId>): Node {
    Node(id, peers, 0, None, [], -1, -1, Follower, None,
         ForAllPeers(peers, 0), ForAllPeers(peers, 0), false, [])
  }

  function QuorumSize(peerCount: nat): nat {
    (peerCount + 1) / 2 + 1
  }

  function LastTerm(log: Log): nat {
    if log == [] then 0 else log[|log| - 1].term
  }

  function Min(a: int, b: int): int { if a <= b then a else b }

  function Max(a: int, b: int): int { if a <= b then b else a }

  // ---------------------------------------------------------------- role changes

  function StepDown(x: Node, leader: Option<NodeId>): (y: Node)
    ensures Keeps(x, y)
  {
    x.(role := Follower, leaderId := leader, electing := false)
  }

  /** A higher term in any message or answer ends the current one. */
  function AdoptTerm(x: Node, term: nat): (y: Node)
    ensures Keeps(x, y)
  {
    if term > x.term then StepDown(x.(term := term, votedFor := None), None) else x
  }

  function OpenElection(x: Node): (y: Node)
    ensures Keeps(x, y)
  {
    x.(electing := true, term := x.term + 1, role := Candidate, votedFor := Some(x.id))
  }

  function Lead(x: Node): (y: Node)
    ensures Keeps(x, y)
  {
    x.(electing := false, role := Role.Leader, leaderId := Some(x.id),
       nextIndex := x.nextIndex + ForAllPeers(x.peers, |x.log|),
       matchIndex := x.matchIndex + ForAllPeers(x.peers, 0))
  }

  /** The end of an election: `granted` peers answered yes. The role is the only thing tested. */
  function CountVotes(x: Node, granted: nat): (y: Node)
    ensures Keeps(x, y)
  {
    (if x.role == Candidate && 1 + granted >= QuorumSize(|x.peers|) then Lead(x) else x).(electing := false)
  }

  // ---------------------------------------------------------------- applying

  function ApplyCommitted(x: Node): (y: Node)
    requires x.commitIndex < |x.log|
    ensures y == x.(lastApplied := y.lastApplied, applied := y.applied)
  {
    if x.lastApplied < x.commitIndex then
      x.(lastApplied := x.commitIndex, applied := x.applied + x.log[x.lastApplied + 1..x.commitIndex + 1])
    else x
  }

  function PeerIndices(peers: seq<NodeId>, matchIndex: map<NodeId, nat>): (r: seq<int>)
    requires forall p | p in peers :: p in matchIndex
    ensures |r| == |peers|
  {
    seq(|peers|, i requires 0 <= i < |peers| => matchIndex[peers[i]])
  }

  function MatchIndices(x: Node): (r: seq<int>)
    requires x.Tracks()
    ensures |r| == |x.peers| + 1
  {
    PeerIndices(x.peers, x.matchIndex) + [|x.log| - 1]
  }

  function UpdateCommitIndex(x: Node): (y: Node)
    requires x.Tracks()
    ensures y == x.(commitIndex := y.commitIndex, lastApplied := y.lastApplied, applied := y.applied)
  {
    if x.role != Role.Leader then x else
    var n := Median(MatchIndices(x));
    if n > x.commitIndex && |x.log| > n && x.log[n].term == x.term
    then ApplyCommitted(x.(commitIndex := n)) else x
  }

  // ---------------------------------------------------------------- requests and answers

  function VoteRequest(x: Node): Message {
    RequestVote(x.id, x.term, |x.log| - 1, LastTerm(x.log))
  }

  function HandleRequestVote(x: Node, m: Message): (r: (Node, Message))
    requires m.RequestVote?
    ensures Keeps(x, r.0)
  {
    var refused := m.term < x.term
                   || (m.term == x.term && x.votedFor.Some? && x.votedFor.value != m.sender);
    var upToDate := m.lastLogTerm > LastTerm(x.log)
                    || (m.lastLogTerm == LastTerm(x.log) && m.lastLogIndex >= |x.log| - 1);
    var grant := !refused && upToDate;
    (if grant then x.(votedFor := Some(m.sender)) else x, VoteResponse(x.id, x.term, grant))
  }

  /** Does the follower's log have the entry the request wants to build on? */
  predicate Accepts(log: Log, m: Message)
    requires m.AppendEntries?
  {
    m.prevLogIndex < |log| && (m.prevLogIndex == -1 || log[m.prevLogIndex].term == m.prevLogTerm)
  }

  /** The follower's commit index moves with the leader's, as far as the log reaches. */
  function FollowCommit(x: Node, leaderCommit: Position): (y: Node)
    ensures y == x.(commitIndex := y.commitIndex, lastApplied := y.lastApplied, applied := y.applied)
  {
    if leaderCommit > x.commitIndex
    then ApplyCommitted(x.(commitIndex := Min(leaderCommit, |x.log| - 1))) else x
  }

  function HandleAppendEntries(x: Node, m: Message): (r: (Node, Message))
    requires m.AppendEntries?
    ensures Keeps(x, r.0)
  {
    var y := (if x.role != Follower then StepDown(x, Some(m.sender)) else x).(leaderId := Some(m.sender));
    if Accepts(x.log, m) then
      var log := Spliced(x.log, m.prevLogIndex + 1, m.entries);
      (FollowCommit(y.(log := log), m.leaderCommit), AppendResponse(x.id, x.term, true, |log| - 1))
    else
      (y, AppendResponse(x.id, x.term, false, 0))
  }

  function HandleMessage(x: Node, m: Message): (r: (Node, Message))
    ensures Keeps(x, r.0)
  {
    var y := AdoptTerm(x, m.term);
    if m.RequestVote? then HandleRequestVote(y, m)
    else if m.AppendEntries? then HandleAppendEntries(y, m)
    else (y, Unsupported(y.id, y.term))
  }

  function AppendRequest(x: Node, peer: NodeId): Message
    requires peer in x.nextIndex
  {
    var next := x.nextIndex[peer];
    AppendEntries(x.id, x.term, next - 1,
                  if 0 <= next - 1 < |x.log| then x.log[next - 1].term else 0,
                  if next < |x.log| then x.log[next..] else [],
                  x.commitIndex)
  }

  /** What the sender does with the answer to its append request `m`. */
  function HearAppend(x: Node, peer: NodeId, m: Message, answer: Message): (y: Node)
    requires x.Tracks() && peer in x.peers && m.AppendEntries?
    ensures Keeps(x, y)
  {
    if answer.AppendResponse? && answer.success then
      var matched: nat := Max(x.matchIndex[peer], m.prevLogIndex + |m.entries|);
      UpdateCommitIndex(x.(matchIndex := x.matchIndex[peer := matched],
                           nextIndex := x.nextIndex[peer := matched + 1]))
    else
      var y := AdoptTerm(x, answer.term);
      var next := y.nextIndex[peer];
      if next > 0 then y.(nextIndex := y.nextIndex[peer := next - 1]) else y
  }

  /** What a candidate does with the answer to a vote request, apart from noting the vote. */
  function HearVote(x: Node, answer: Message): (y: Node)
    ensures Keeps(x, y)
  {
    AdoptTerm(x, answer.term)
  }

  /** A client command accepted by a leader: its log grows by one entry of its term, which a
      node without peers commits and applies at once. */
  function Submit(x: Node, command: Command): (y: Node)
    ensures Keeps(x, y)
  {
    var y := x.(log := x.log + [LogEntry(x.term, |x.log|, command)]);
    if x.peers == [] then ApplyCommitted(y.(commitIndex := |x.log|)) else y
  }
}
