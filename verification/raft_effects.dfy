/** What each stretch of the node's code leaves behind, field by field: for every message, answer and
    request, in the words of the node's fields alone. */
module RaftEffects {
  import opened CoreTypes
  import opened RaftLog
  import opened RaftMedian
  import opened RaftSpec
  import opened RaftNodes
  import opened RaftCluster

  function Higher(a: nat, b: nat): nat { if a > b then a else b }

  function Further(a: Position, b: Position): Position { if a > b then a else b }

  function Lower(a: int, b: int): int { if a < b then a else b }

  /** What the callbacks have seen once they have caught up with a commit index. */
  function CaughtUp(applied: Log, log: Log, lastApplied: Position, commitIndex: Position): Log
    requires commitIndex < |log|
  {
    if lastApplied < commitIndex then applied + log[lastApplied + 1..commitIndex + 1] else applied
  }

  // ---------------------------------------------------------------- requests

  /** A vote request that is handled: the vote goes to the sender exactly if the term is not behind, the
      vote of that term is open or already the sender's, and the sender's last entry is of a higher term,
      or of the same term and not at a lower position. */
  lemma VoteRequestHandled(x: Node, m: Message)
    requires m.RequestVote?
    ensures var (y, answer) := HandleMessage(x, m);
            var newer := m.term > x.term;
            var free := newer || x.votedFor == None || x.votedFor == Some(m.sender);
            var upToDate := if x.log == [] then true
                            else m.lastLogTerm > x.log[|x.log| - 1].term
                                 || (m.lastLogTerm == x.log[|x.log| - 1].term && m.lastLogIndex >= |x.log| - 1);
            var granted := m.term >= x.term && free && upToDate;
            && answer == VoteResponse(x.id, Higher(x.term, m.term), granted)
            && y == x.(term := Higher(x.term, m.term),
                       votedFor := if granted then Some(m.sender) else if newer then None else x.votedFor,
                       role := if newer then Follower else x.role,
                       leaderId := if newer then None else x.leaderId,
                       electing := !newer && x.electing)
  {
  }

  lemma CommitFollowed(x: Node, leaderCommit: Position)
    ensures FollowCommit(x, leaderCommit) ==
            if leaderCommit > x.commitIndex then
              var commitIndex := Lower(leaderCommit, |x.log| - 1);
              x.(commitIndex := commitIndex, lastApplied := Further(x.lastApplied, commitIndex),
                 applied := CaughtUp(x.applied, x.log, x.lastApplied, commitIndex))
            else x
  {
  }

  /** An append request that is handled: whatever its term, the node becomes a follower of the sender. It
      is accepted exactly if the entry before the sent ones is there. Then the log is the merged one, and
      a commit index of the leader beyond the node's own moves the node's as far as the log reaches, with
      the callbacks catching up. */
  lemma AppendRequestHandled(x: Node, m: Message)
    requires m.AppendEntries?
    ensures var (y, answer) := HandleMessage(x, m);
            var newer := m.term > x.term;
            var accepted := m.prevLogIndex == -1
                            || (m.prevLogIndex < |x.log| && x.log[m.prevLogIndex].term == m.prevLogTerm);
            var log := if accepted then Spliced(x.log, m.prevLogIndex + 1, m.entries) else x.log;
            var moves := accepted && m.leaderCommit > x.commitIndex;
            var commitIndex := if moves then Lower(m.leaderCommit, |log| - 1) else x.commitIndex;
            && answer == AppendResponse(x.id, Higher(x.term, m.term), accepted, if accepted then |log| - 1 else 0)
            && y.term == Higher(x.term, m.term) && y.votedFor == (if newer then None else x.votedFor)
            && y.role == Follower && y.leaderId == Some(m.sender)
            && y.electing == (x.electing && !newer && x.role == Follower)
            && y.log == log && y.commitIndex == commitIndex
            && (moves ==> y.lastApplied == Further(x.lastApplied, commitIndex)
                          && y.applied == CaughtUp(x.applied, log, x.lastApplied, commitIndex))
            && (!moves ==> y.lastApplied == x.lastApplied && y.applied == x.applied)
            && y.id == x.id && y.peers == x.peers && y.nextIndex == x.nextIndex && y.matchIndex == x.matchIndex
  {
    hide Spliced, FollowCommit;
    var y := AdoptTerm(x, m.term);
    var z := (if y.role != Follower then StepDown(y, Some(m.sender)) else y).(leaderId := Some(m.sender));
    if Accepts(x.log, m) { CommitFollowed(z.(log := Spliced(x.log, m.prevLogIndex + 1, m.entries)), m.leaderCommit); }
  }

  /** Anything else is refused; a higher term counts all the same. */
  lemma OtherMessageHandled(x: Node, m: Message)
    requires !m.RequestVote? && !m.AppendEntries?
    ensures var (y, answer) := HandleMessage(x, m);
            && answer == Unsupported(x.id, Higher(x.term, m.term))
            && y == if m.term > x.term
                    then x.(term := m.term, votedFor := None, role := Follower, leaderId := None, electing := false)
                    else x
  {
  }

  // ---------------------------------------------------------------- answers

  /** The answer to a vote request: only its term matters to the node. */
  lemma VoteAnswerHeard(x: Node, answer: Message)
    ensures HearVote(x, answer) ==
            if answer.term > x.term
            then x.(term := answer.term, votedFor := None, role := Follower, leaderId := None, electing := false)
            else x
  {
  }

  /** Anything but a success: a higher term counts, and the next request to the peer starts one entry
      earlier, if there is one. */
  lemma RefusalHeard(x: Node, peer: NodeId, m: Message, answer: Message)
    requires x.Tracks() && peer in x.peers && m.AppendEntries? && !(answer.AppendResponse? && answer.success)
    ensures var next := x.nextIndex[peer];
            var y := if answer.term > x.term
                     then x.(term := answer.term, votedFor := None, role := Follower, leaderId := None,
                             electing := false)
                     else x;
            HearAppend(x, peer, m, answer)
            == if next > 0 then y.(nextIndex := x.nextIndex[peer := next - 1]) else y
  {
  }

  /** The table entry of the peer after a success: never lower than it was. */
  function Matched(x: Node, peer: NodeId, m: Message): nat
    requires peer in x.matchIndex && m.AppendEntries?
  {
    var reached := m.prevLogIndex + |m.entries|;
    if reached > x.matchIndex[peer] then reached else x.matchIndex[peer]
  }

  /** What the sorting works on: the table after the success, one entry for each peer, and the sender's
      last position. */
  function TableAfter(x: Node, peer: NodeId, m: Message): seq<int>
    requires x.Tracks() && peer in x.peers && m.AppendEntries?
  {
    seq(|x.peers|, i requires 0 <= i < |x.peers| =>
      if x.peers[i] == peer then Matched(x, peer, m) else x.matchIndex[x.peers[i]]) + [|x.log| - 1]
  }

  /** A success moves the table, and sends what follows next time. A leader then commits exactly if the
      middle of the sorted table lies beyond its commit index, inside its log, on an entry of its own
      term; its commit index becomes that position and the callbacks catch up. */
  lemma SuccessHeard(x: Node, peer: NodeId, m: Message, answer: Message, sorted: seq<int>)
    requires x.Tracks() && peer in x.peers && m.AppendEntries? && answer.AppendResponse? && answer.success
    requires Ascending(sorted) && multiset(sorted) == multiset(TableAfter(x, peer, m))
    ensures |sorted| == |x.peers| + 1
    ensures var matched, middle := Matched(x, peer, m), sorted[|sorted| / 2];
            var y := x.(matchIndex := x.matchIndex[peer := matched], nextIndex := x.nextIndex[peer := matched + 1]);
            HearAppend(x, peer, m, answer) ==
            if x.role == Role.Leader && x.commitIndex < middle < |x.log| && x.log[middle].term == x.term
            then y.(commitIndex := middle, lastApplied := Further(x.lastApplied, middle),
                    applied := CaughtUp(x.applied, x.log, x.lastApplied, middle))
            else y
  {
    hide Median;
    var y := x.(matchIndex := x.matchIndex[peer := Matched(x, peer, m)],
                nextIndex := x.nextIndex[peer := Matched(x, peer, m) + 1]);
    assert MatchIndices(y) == TableAfter(x, peer, m);
    MedianIsTheMiddle(TableAfter(x, peer, m), sorted);
  }


  // ---------------------------------------------------------------- elections

  lemma ElectionOpened(x: Node)
    ensures OpenElection(x)
            == x.(term := x.term + 1, votedFor := Some(x.id), role := Candidate, electing := true)
  {
  }

  /** The count: the node leads afterwards exactly if it led before, or was a candidate and has, with its
      own vote, more than half of the cluster. A new leader starts its table over for every peer; nothing
      else happens but the end of the election. */
  lemma VotesCounted(x: Node, results: seq<bool>)
    ensures var y := CountVotes(x, TrueCount(results));
            var wins := x.role == Candidate && 2 * (1 + multiset(results)[true]) > |x.peers| + 1;
            && (y.role == Role.Leader <==> x.role == Role.Leader || wins)
            && (!wins ==> y == x.(electing := false))
            && (wins ==>
                  && y == x.(electing := false, role := Role.Leader, leaderId := Some(x.id),
                             nextIndex := y.nextIndex, matchIndex := y.matchIndex)
                  && y.nextIndex.Keys == x.nextIndex.Keys + (set p | p in x.peers)
                  && y.matchIndex.Keys == x.matchIndex.Keys + (set p | p in x.peers)
                  && (forall p | p in x.peers :: y.nextIndex[p] == |x.log| && y.matchIndex[p] == 0)
                  && (forall p | p in x.nextIndex && p !in x.peers :: y.nextIndex[p] == x.nextIndex[p])
                  && (forall p | p in x.matchIndex && p !in x.peers :: y.matchIndex[p] == x.matchIndex[p]))
  {
    TrueCountIsMultiplicity(results);
  }

  function Among(peers: seq<NodeId>, voters: set<NodeId>): set<NodeId> {
    set p | p in peers && p in voters
  }

  lemma OneMorePeer(peers: seq<NodeId>, voters: set<NodeId>)
    requires peers != [] && NoDuplicates(peers)
    ensures var k := |peers| - 1;
            && NoDuplicates(peers[..k])
            && |Among(peers, voters)| == |Among(peers[..k], voters)| + if peers[k] in voters then 1 else 0
  {
    var k := |peers| - 1;
    assert peers == peers[..k] + [peers[k]] && peers[k] !in peers[..k];
    assert Among(peers, voters)
        == if peers[k] in voters then Among(peers[..k], voters) + {peers[k]} else Among(peers[..k], voters);
  }

  lemma {:induction false} TruePeers(peers: seq<NodeId>, voters: set<NodeId>, results: seq<bool>)
    requires NoDuplicates(peers) && |results| == |peers|
    requires forall i | 0 <= i < |peers| :: results[i] == (peers[i] in voters)
    ensures TrueCount(results) == |Among(peers, voters)|
  {
    hide NoDuplicates, Among;
    if peers == [] {
      assert Among(peers, voters) == {} by { NobodyAmong(peers, voters); }
    } else {
      OneMorePeer(peers, voters);
      TruePeers(peers[..|peers| - 1], voters, results[..|peers| - 1]);
    }
  }

  lemma NobodyAmong(peers: seq<NodeId>, voters: set<NodeId>)
    requires peers == []
    ensures Among(peers, voters) == {}
  {
  }

  /** The method's count is the cluster's: if the answers gathered are true for exactly the peers noted
      for the election, finishing the election is the cluster's counting step. */
  lemma CountIsTheClusters(c: Cluster, n: NodeId, e: nat, results: seq<bool>)
    requires c.Shaped() && Enabled(c, Count(n, e)) && NoDuplicates(c.nodes[n].peers)
    requires c.elections[n][e] <= (set p | p in c.nodes[n].peers) && |results| == |c.nodes[n].peers|
    requires forall i | 0 <= i < |results| :: results[i] == (c.nodes[n].peers[i] in c.elections[n][e])
    ensures Apply(c, Count(n, e)).nodes == c.nodes[n := CountVotes(c.nodes[n], TrueCount(results))]
  {
    hide CountVotes, TrueCount, NoDuplicates;
    TruePeers(c.nodes[n].peers, c.elections[n][e], results);
    assert Among(c.nodes[n].peers, c.elections[n][e]) == c.elections[n][e];
  }

  // ---------------------------------------------------------------- sending and submitting

  lemma VoteRequestSent(x: Node)
    ensures VoteRequest(x)
            == RequestVote(x.id, x.term, |x.log| - 1, if x.log == [] then 0 else x.log[|x.log| - 1].term)
  {
  }

  /** What a node sends a peer: everything from the peer's table entry on, after the entry before it, with
      the node's own commit index. */
  lemma AppendRequestSent(x: Node, peer: NodeId)
    requires peer in x.nextIndex
    ensures var m, next := AppendRequest(x, peer), x.nextIndex[peer];
            && m.AppendEntries? && m.sender == x.id && m.term == x.term && m.leaderCommit == x.commitIndex
            && m.prevLogIndex == next - 1
            && m.prevLogTerm == (if 0 < next <= |x.log| then x.log[next - 1].term else 0)
            && (next <= |x.log| ==> x.log == x.log[..next] + m.entries)
            && (next > |x.log| ==> m.entries == [])
  {
  }

  /** A command accepted: one entry more, of the node's term; without peers it is committed, and the
      callbacks catch up. */
  lemma CommandSubmitted(x: Node, command: Command)
    ensures var log := x.log + [LogEntry(x.term, |x.log|, command)];
            Submit(x, command) ==
            if x.peers != [] then x.(log := log)
            else x.(log := log, commitIndex := |x.log|, lastApplied := Further(x.lastApplied, |x.log|),
                    applied := CaughtUp(x.applied, log, x.lastApplied, |x.log|))
  {
  }
}
