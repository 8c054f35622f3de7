/** The consensus node as the object it is: fields updated in place, each method proved against the
    value-level description of its stretch of code. */
module RaftNodes {
  import opened CoreTypes
  import opened RaftLog
  import opened RaftMedian
  import Spec = RaftSpec

  /** `sum(1 for r in results if r is True)` */
  function TrueCount(results: seq<bool>): (n: nat)
    ensures n <= |results|
  {
    if results == [] then 0
    else TrueCount(results[..|results| - 1]) + if results[|results| - 1] then 1 else 0
  }

  lemma {:induction false} TrueCountIsMultiplicity(results: seq<bool>)
    ensures TrueCount(results) == multiset(results)[true]
  {
    if results != [] {
      TrueCountIsMultiplicity(results[..|results| - 1]);
      assert results == results[..|results| - 1] + [results[|results| - 1]];
    }
  }

  class RaftNode {
    const nodeId: NodeId
    const peers: seq<NodeId>
    var currentTerm: nat
    var votedFor: Option<NodeId>
    var log: Log
    var commitIndex: Position
    var lastApplied: Position
    var state: Spec.Role
    var leaderId: Option<NodeId>
    var nextIndex: map<NodeId, nat>
    var matchIndex: map<NodeId, nat>
    var electionInProgress: bool
    /** What the commit callbacks have been called with. */
    var applied: Log

    ghost function State(): Spec.Node
      reads this
    {
      Spec.Node(nodeId, peers, currentTerm, votedFor, log, commitIndex, lastApplied, state, leaderId,
                nextIndex, matchIndex, electionInProgress, applied)
    }

    ghost predicate Valid()
      reads this
    {
      State().Tracks() && |applied| == lastApplied + 1
    }

    constructor (nodeId: NodeId, peers: seq<NodeId>)
      ensures Valid() && State() == Spec.Fresh(nodeId, peers)
      ensures currentTerm == 0 && votedFor == None && log == [] && commitIndex == lastApplied == -1
      ensures state == Spec.Follower && leaderId == None && !electionInProgress && applied == []
      ensures forall p | p in peers :: nextIndex[p] == matchIndex[p] == 0
    {
      this.nodeId, this.peers := nodeId, peers;
      currentTerm, votedFor, log := 0, None, [];
      commitIndex, lastApplied, state, leaderId := -1, -1, Spec.Follower, None;
      nextIndex := map p | p in peers :: 0;
      matchIndex := map p | p in peers :: 0;
      electionInProgress, applied := false, [];
    }

    // -------------------------------------------------------------- elections

    method ElectionTimeout()
      requires Valid()
      modifies this
      ensures Valid()
      ensures State() == if old(state) != Spec.Role.Leader && !old(electionInProgress)
                         then Spec.OpenElection(old(State())) else old(State())
    {
      if state != Spec.Role.Leader && !electionInProgress {
        StartElection();
      }
    }

    method StartElection()
      requires Valid()
      modifies this
      ensures Valid()
      ensures State() == if old(electionInProgress) then old(State()) else Spec.OpenElection(old(State()))
    {
      if electionInProgress { return; }
      electionInProgress := true;
      currentTerm := currentTerm + 1;
      state := Spec.Candidate;
      votedFor := Some(nodeId);
    }

    method RequestVoteMessage() returns (m: Spec.Message)
      ensures m == Spec.VoteRequest(State())
    {
      var lastLogTerm := if log == [] then 0 else log[|log| - 1].term;
      m := Spec.RequestVote(nodeId, currentTerm, |log| - 1, lastLogTerm);
    }

    method HearVoteResponse(answer: Spec.Message) returns (granted: bool)
      requires Valid()
      modifies this
      ensures Valid()
      ensures State() == Spec.HearVote(old(State()), answer)
      ensures granted == (answer.VoteResponse? && answer.voteGranted)
    {
      AdoptTerm(answer.term);
      granted := answer.VoteResponse? && answer.voteGranted;
    }

    method FinishElection(results: seq<bool>)
      requires Valid()
      modifies this
      ensures Valid()
      ensures State() == Spec.CountVotes(old(State()), TrueCount(results))
      ensures state == Spec.Role.Leader <==>
              || old(state) == Spec.Role.Leader
              || (old(state) == Spec.Candidate && 1 + multiset(results)[true] >= (|peers| + 1) / 2 + 1)
    {
      TrueCountIsMultiplicity(results);
      var votesReceived := 1;
      for i := 0 to |results|
        invariant votesReceived == 1 + TrueCount(results[..i])
      {
        assert results[..i + 1][..i] == results[..i];
        if results[i] { votesReceived := votesReceived + 1; }
      }
      assert results[..|results|] == results;
      if state == Spec.Candidate && votesReceived >= Spec.QuorumSize(|peers|) {
        BecomeLeader();
      }
      electionInProgress := false;
    }

    method BecomeLeader()
      requires Valid()
      modifies this
      ensures Valid() && State() == Spec.Lead(old(State()))
    {
      electionInProgress := false;
      state := Spec.Role.Leader;
      leaderId := Some(nodeId);
      ResetProgress();
    }

    method ResetProgress()
      modifies this`nextIndex, this`matchIndex
      ensures nextIndex == old(nextIndex) + Spec.ForAllPeers(peers, |log|)
      ensures matchIndex == old(matchIndex) + Spec.ForAllPeers(peers, 0)
    {
      for i := 0 to |peers|
        invariant nextIndex.Keys == old(nextIndex).Keys + set p | p in peers[..i]
        invariant matchIndex.Keys == old(matchIndex).Keys + set p | p in peers[..i]
        invariant forall p | p in nextIndex :: nextIndex[p] == if p in peers[..i] then |log| else old(nextIndex)[p]
        invariant forall p | p in matchIndex :: matchIndex[p] == if p in peers[..i] then 0 else old(matchIndex)[p]
      {
        assert peers[..i + 1] == peers[..i] + [peers[i]];
        nextIndex := nextIndex[peers[i] := |log|];
        matchIndex := matchIndex[peers[i] := 0];
      }
      assert peers[..|peers|] == peers;
    }

    method BecomeFollower(leader: Option<NodeId>)
      requires Valid()
      modifies this
      ensures Valid() && State() == Spec.StepDown(old(State()), leader)
    {
      state := Spec.Follower;
      leaderId := leader;
      electionInProgress := false;
    }

    method AdoptTerm(term: nat)
      requires Valid()
      modifies this
      ensures Valid() && State() == Spec.AdoptTerm(old(State()), term)
    {
      if term > currentTerm {
        currentTerm := term;
        votedFor := None;
        BecomeFollower(None);
      }
    }

    // -------------------------------------------------------------- replication

    method AppendEntriesMessage(peer: NodeId) returns (m: Spec.Message)
      requires Valid() && peer in peers
      ensures m == Spec.AppendRequest(State(), peer)
    {
      var prevLogIndex := nextIndex[peer] as int - 1;
      var prevLogTerm := if prevLogIndex >= 0 && prevLogIndex < |log| then log[prevLogIndex].term else 0;
      var entries := [];
      if nextIndex[peer] < |log| {
        entries := log[nextIndex[peer]..];
      }
      m := Spec.AppendEntries(nodeId, currentTerm, prevLogIndex, prevLogTerm, entries, commitIndex);
    }

    method HearAppendResponse(peer: NodeId, m: Spec.Message, answer: Spec.Message) returns (replicated: bool)
      requires Valid() && peer in peers && m.AppendEntries?
      modifies this
      ensures Valid()
      ensures State() == Spec.HearAppend(old(State()), peer, m, answer)
      ensures replicated == (answer.AppendResponse? && answer.success)
    {
      hide Spec.UpdateCommitIndex;
      if answer.AppendResponse? && answer.success {
        matchIndex := matchIndex[peer := Spec.Max(matchIndex[peer], m.prevLogIndex + |m.entries|)];
        nextIndex := nextIndex[peer := matchIndex[peer] + 1];
        assert Valid();
        UpdateCommitIndex();
        return true;
      }
      AdoptTerm(answer.term);
      if nextIndex[peer] > 0 {
        nextIndex := nextIndex[peer := nextIndex[peer] - 1];
      }
      return false;
    }

    method UpdateCommitIndex()
      requires Valid()
      modifies this
      ensures Valid() && State() == Spec.UpdateCommitIndex(old(State()))
    {
      if state != Spec.Role.Leader { return; }
      var matchIndices := [];
      for i := 0 to |peers|
        invariant |matchIndices| == i
        invariant forall j | 0 <= j < i :: matchIndices[j] == matchIndex[peers[j]]
      {
        matchIndices := matchIndices + [matchIndex[peers[i]]];
      }
      matchIndices := matchIndices + [|log| - 1];
      assert matchIndices == Spec.MatchIndices(State());
      var n := Sorted(matchIndices)[|matchIndices| / 2];
      if n > commitIndex && |log| > n && log[n].term == currentTerm {
        commitIndex := n;
        ApplyCommittedEntries();
      }
    }

    /** Every read is in range and each position is handed over once, in order. */
    method ApplyCommittedEntries()
      requires Valid() && commitIndex < |log|
      modifies this
      ensures Valid() && State() == Spec.ApplyCommitted(old(State()))
    {
      while lastApplied < commitIndex
        invariant State() == old(State()).(lastApplied := lastApplied, applied := applied)
        invariant old(lastApplied) <= lastApplied
        invariant lastApplied <= commitIndex || lastApplied == old(lastApplied)
        invariant applied == if old(lastApplied) <= commitIndex
                             then old(applied) + log[old(lastApplied) + 1..lastApplied + 1] else old(applied)
        invariant |applied| == lastApplied + 1
      {
        lastApplied := lastApplied + 1;
        var entry := log[lastApplied];
        applied := applied + [entry];
      }
    }

    // -------------------------------------------------------------- incoming messages

    method HandleMessage(m: Spec.Message) returns (answer: Spec.Message)
      requires Valid()
      modifies this
      ensures Valid() && (State(), answer) == Spec.HandleMessage(old(State()), m)
    {
      AdoptTerm(m.term);
      match m
      case RequestVote(_, _, _, _) => answer := HandleRequestVote(m);
      case AppendEntries(_, _, _, _, _, _) => answer := HandleAppendEntries(m);
      case _ => answer := Spec.Unsupported(nodeId, currentTerm);
    }

    method HandleRequestVote(m: Spec.Message) returns (answer: Spec.Message)
      requires Valid() && m.RequestVote?
      modifies this
      ensures Valid() && (State(), answer) == Spec.HandleRequestVote(old(State()), m)
    {
      var grant := false;
      if m.term < currentTerm {
      } else if m.term == currentTerm && votedFor.Some? && votedFor.value != m.sender {
      } else {
        var lastLogTerm := if log == [] then 0 else log[|log| - 1].term;
        var lastLogIndex := |log| - 1;
        if m.lastLogTerm > lastLogTerm || (m.lastLogTerm == lastLogTerm && m.lastLogIndex >= lastLogIndex) {
          grant := true;
          votedFor := Some(m.sender);
        }
      }
      answer := Spec.VoteResponse(nodeId, currentTerm, grant);
    }

    method HandleAppendEntries(m: Spec.Message) returns (answer: Spec.Message)
      requires Valid() && m.AppendEntries?
      modifies this
      ensures Valid() && (State(), answer) == Spec.HandleAppendEntries(old(State()), m)
    {
      hide Spliced, Spec.FollowCommit;
      if state != Spec.Follower {
        BecomeFollower(Some(m.sender));
      }
      leaderId := Some(m.sender);
      var success := false;
      if m.prevLogIndex < |log| {
        if m.prevLogIndex == -1 || log[m.prevLogIndex].term == m.prevLogTerm {
          success := true;
          MergeEntries(m.prevLogIndex, m.entries);
          FollowCommit(m.leaderCommit);
        }
      }
      answer := Spec.AppendResponse(nodeId, currentTerm, success, if success then |log| - 1 else 0);
    }

    method FollowCommit(leaderCommit: Position)
      requires Valid()
      modifies this
      ensures Valid() && State() == Spec.FollowCommit(old(State()), leaderCommit)
    {
      if leaderCommit > commitIndex {
        commitIndex := Spec.Min(leaderCommit, |log| - 1);
        ApplyCommittedEntries();
      }
    }

    method MergeEntries(prevLogIndex: Position, entries: Log)
      requires Valid() && prevLogIndex < |log|
      modifies this`log
      ensures Valid() && log == Spliced(old(log), prevLogIndex + 1, entries)
    {
      ghost var before := log;
      ghost var at: nat := prevLogIndex + 1;
      ghost var k := Agreeing(before, at, entries);
      for i := 0 to |entries|
        invariant log == if i <= k then before else before[..at + k] + entries[k..i]
      {
        var idx := prevLogIndex + 1 + i;
        if idx < |log| {
          if log[idx].term != entries[i].term {
            log := log[..idx];
          }
        }
        if idx >= |log| {
          log := log + [entries[i]];
        }
      }
    }

    // -------------------------------------------------------------- clients

    method AppendEntry(command: Command) returns (accepted: bool)
      requires Valid()
      modifies this
      ensures Valid()
      ensures accepted == (old(state) == Spec.Role.Leader)
      ensures log == old(log) + if accepted then [LogEntry(old(currentTerm), |old(log)|, command)] else []
      ensures State() == if accepted then Spec.Submit(old(State()), command) else old(State())
    {
      if state != Spec.Role.Leader { return false; }
      var entry := LogEntry(currentTerm, |log|, command);
      log := log + [entry];
      if peers == [] {
        commitIndex := entry.index;
        ApplyCommittedEntries();
      }
      return true;
    }
  }
}
