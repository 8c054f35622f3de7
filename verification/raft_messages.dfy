/** Repeated messages, and votes over every run, without any hypothesis on how elections are counted. */
module RaftMessages {
  import opened CoreTypes
  import opened RaftLog
  import opened RaftSpec
  import opened RaftCluster

  // ---------------------------------------------------------------- repeated delivery

  lemma VotingTwice(x: Node, m: Message)
    requires m.RequestVote?
    ensures HandleMessage(HandleMessage(x, m).0, m) == HandleMessage(x, m)
  {
  }

  lemma AcceptedAgain(log: Log, m: Message)
    requires m.AppendEntries? && Accepts(log, m)
    ensures m.prevLogIndex + 1 <= |log| && Accepts(Spliced(log, m.prevLogIndex + 1, m.entries), m)
  {
  }

  lemma FollowingTwice(x: Node, leaderCommit: Position)
    ensures FollowCommit(FollowCommit(x, leaderCommit), leaderCommit) == FollowCommit(x, leaderCommit)
  {
  }

  lemma AppendingTwice(x: Node, m: Message)
    requires m.AppendEntries?
    ensures HandleMessage(HandleMessage(x, m).0, m) == HandleMessage(x, m)
  {
    hide Spliced, Accepts, FollowCommit;
    if Accepts(x.log, m) {
      var y := AdoptTerm(x, m.term);
      var z := (if y.role != Follower then StepDown(y, Some(m.sender)) else y).(leaderId := Some(m.sender));
      AcceptedAgain(x.log, m);
      SplicedIsIdempotent(x.log, m.prevLogIndex + 1, m.entries);
      FollowingTwice(z.(log := Spliced(x.log, m.prevLogIndex + 1, m.entries)), m.leaderCommit);
    }
  }

  /** A message delivered again right away changes nothing and is answered as before. */
  lemma RedeliveryIsHarmless(x: Node, m: Message)
    ensures var (y, answer) := HandleMessage(x, m); HandleMessage(y, m) == (y, answer)
  {
    hide HandleRequestVote, HandleAppendEntries;
    match m
    case RequestVote(_, _, _, _) => VotingTwice(x, m);
    case AppendEntries(_, _, _, _, _, _) => AppendingTwice(x, m);
    case _ =>
  }

  // ---------------------------------------------------------------- who may be voted for

  /** The order in which logs are compared by a voter: by the terms of their last entries, then by length. */
  predicate UpToDate(candidate: Log, voter: Log) {
    voter == [] ||
    (candidate != [] &&
     var c, v := candidate[|candidate| - 1].term, voter[|voter| - 1].term;
     c > v || (c == v && |candidate| >= |voter|))
  }

  /** The request of a node is granted by another exactly if the voter's term is not higher, its vote in
      that term is not somebody else's, and its log is not ahead of the candidate's. */
  lemma GrantedIff(x: Node, y: Node)
    ensures var (y', answer) := HandleMessage(y, VoteRequest(x));
            && answer.VoteResponse?
            && (answer.voteGranted <==>
                  && y.term <= x.term && UpToDate(x.log, y.log)
                  && (y.term == x.term && y.votedFor.Some? ==> y.votedFor == Some(x.id)))
            && (answer.voteGranted ==> y'.term == x.term && y'.votedFor == Some(x.id))
  {
  }

  // ---------------------------------------------------------------- votes over a run

  /** The term never falls, and within a term a vote once cast stays. */
  predicate VoteKept(x: Node, y: Node) {
    && x.term <= y.term
    && (x.term == y.term && x.votedFor.Some? ==> y.votedFor == x.votedFor)
  }

  lemma HandlingKeepsVote(x: Node, m: Message)
    ensures VoteKept(x, HandleMessage(x, m).0)
  {
    hide Spliced, Accepts, FollowCommit;
  }

  lemma HearingKeepsVote(x: Node, peer: NodeId, m: Message, answer: Message)
    requires x.Tracks() && peer in x.peers && m.AppendEntries?
    ensures VoteKept(x, HearAppend(x, peer, m, answer))
  {
    hide UpdateCommitIndex;
  }

  lemma StepKeepsVote(c: Cluster, s: Step, c': Cluster, n: NodeId)
    requires Next(c, s, c') && n in c.nodes
    ensures n in c'.nodes && VoteKept(c.nodes[n], c'.nodes[n])
  {
    hide Next, HandleMessage, HearAppend, SameMembers, Wins;
    match s
    case Open(_) => OpenEffect(c, s, c');
    case AskVote(_, _, _) => AskVoteEffect(c, s, c');
    case Deliver(q) => DeliverEffect(c, s, c'); HandlingKeepsVote(c.nodes[q.to], q.body);
    case HearVoteAnswer(_) => HearVoteEffect(c, s, c');
    case Count(_, _) => CountEffect(c, s, c');
    case ClientSubmit(_, _) => SubmitEffect(c, s, c');
    case Replicate(_, _) => ReplicateEffect(c, s, c');
    case HearAppendAnswer(a) =>
      HearAppendEffect(c, s, c');
      HearingKeepsVote(c.nodes[a.call.body.sender], a.call.to, a.call.body, a.body);
  }

  lemma {:induction false} VotesAreKept(run: Run, i: nat, k: nat, n: NodeId)
    requires run.Valid() && i <= k < |run.states| && n in run.states[i].nodes
    ensures n in run.states[k].nodes && VoteKept(run.states[i].nodes[n], run.states[k].nodes[n])
    decreases k
  {
    hide Next, GoodConfig, Init;
    if i < k {
      VotesAreKept(run, i, k - 1, n);
      assert Next(run.states[k - 1], run.steps[k - 1], run.states[k]);
      StepKeepsVote(run.states[k - 1], run.steps[k - 1], run.states[k], n);
    }
  }

  /** In step `k`, node `n` says yes to a vote request. */
  ghost predicate SaysYes(run: Run, k: nat, n: NodeId)
    requires run.Valid() && k < |run.steps|
  {
    && run.steps[k].Deliver? && run.steps[k].call.to == n && n in run.states[k].nodes
    && var answer := HandleMessage(run.states[k].nodes[n], run.steps[k].call.body).1;
       answer.VoteResponse? && answer.voteGranted
  }

  lemma YesIsRecorded(run: Run, k: nat, n: NodeId)
    requires run.Valid() && k < |run.steps| && SaysYes(run, k, n)
    ensures n in run.states[k + 1].nodes
    ensures var m, y := run.steps[k].call.body, run.states[k + 1].nodes[n];
            y.votedFor == Some(m.sender) && y.term == m.term
  {
    hide GoodConfig, Init, HandleMessage;
    assert Next(run.states[k], run.steps[k], run.states[k + 1]);
    DeliverEffect(run.states[k], run.steps[k], run.states[k + 1]);
    GrantingSetsVote(run.states[k].nodes[n], run.steps[k].call.body);
  }

  lemma GrantingSetsVote(x: Node, m: Message)
    ensures var (y, a) := HandleMessage(x, m);
            a.VoteResponse? && a.voteGranted ==> y.votedFor == Some(m.sender) && y.term == m.term
  {
  }

  /** One vote per term: over every run, a node that says yes twice in one term says it to one
      candidate. */
  lemma OneVotePerTerm(run: Run, i: nat, k: nat, n: NodeId)
    requires run.Valid() && i < |run.steps| && k < |run.steps|
    requires SaysYes(run, i, n) && SaysYes(run, k, n)
    requires run.steps[i].call.body.term == run.steps[k].call.body.term
    ensures run.steps[i].call.body.sender == run.steps[k].call.body.sender
  {
    hide SaysYes, Next, GoodConfig, Init;
    YesIsRecorded(run, i, n);
    YesIsRecorded(run, k, n);
    if i <= k {
      VotesAreKept(run, i + 1, k + 1, n);
    } else {
      VotesAreKept(run, k + 1, i + 1, n);
    }
  }
}
