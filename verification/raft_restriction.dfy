/** The election restriction (section 5.4.1 of the Raft paper) over every run: whoever is counted as a
    voter had no log ahead of the winner's when it said yes. */
module RaftRestriction {
  import opened CoreTypes
  import opened RaftLog
  import opened RaftSpec
  import opened RaftCluster
  import opened RaftMessages

  /** Its term never falls, and it is a candidate in an old term only if it was, with the log it had. */
  predicate StaysCandidate(x: Node, y: Node) {
    && y.id == x.id && x.term <= y.term
    && (y.role == Candidate && y.term == x.term ==> x.role == Candidate && y.log == x.log)
  }

  /** While its sender stands in the term of a vote request, the request describes the sender's log. */
  predicate Describes(c: Cluster, q: Call) {
    && q.body.sender in c.nodes && q.election <= q.body.term <= c.nodes[q.body.sender].term
    && var x := c.nodes[q.body.sender];
       x.role == Candidate && x.term == q.body.term ==> q.body == VoteRequest(x)
  }

  predicate RequestsDescribe(c: Cluster) {
    forall q | q in c.calls && q.body.RequestVote? :: Describes(c, q)
  }

  predicate ElectionsReached(c: Cluster) {
    forall n, e | n in c.nodes && n in c.elections && e in c.elections[n] :: e <= c.nodes[n].term
  }

  predicate AnswersWereAsked(c: Cluster) {
    forall a | a in c.answers :: a.call in c.calls
  }

  /** A yes that was noted for an election answers a request sent for it. */
  predicate IsYes(a: Answer, n: NodeId, e: nat, v: NodeId) {
    && a.body.VoteResponse? && a.body.voteGranted && a.call.body.RequestVote?
    && a.call.body.sender == n && a.call.election == e && a.call.to == v
  }

  predicate Answered(c: Cluster, n: NodeId, e: nat, v: NodeId) {
    exists a | a in c.answers :: IsYes(a, n, e, v)
  }

  predicate VotesAnswered(c: Cluster) {
    forall n, e, v | n in c.nodes && n in c.elections && e in c.elections[n] && v in c.elections[n][e] ::
      Answered(c, n, e, v)
  }

  predicate Inv(c: Cluster) {
    RequestsDescribe(c) && ElectionsReached(c) && AnswersWereAsked(c) && VotesAnswered(c)
  }

  // ---------------------------------------------------------------- one step

  lemma HandlingStaysCandidate(x: Node, m: Message)
    ensures StaysCandidate(x, HandleMessage(x, m).0)
  {
    hide Spliced, Accepts, FollowCommit;
  }

  lemma HearingStaysCandidate(x: Node, peer: NodeId, m: Message, answer: Message)
    requires x.Tracks() && peer in x.peers && m.AppendEntries?
    ensures StaysCandidate(x, HearAppend(x, peer, m, answer))
  {
    hide UpdateCommitIndex;
  }

  /** One node moves, the network grows by requests that describe their sender, and no vote is noted. */
  lemma MovingKeepsInv(c: Cluster, c': Cluster, n: NodeId)
    requires Inv(c) && n in c.nodes && n in c'.nodes && c'.nodes == c.nodes[n := c'.nodes[n]]
    requires StaysCandidate(c.nodes[n], c'.nodes[n])
    requires c.calls <= c'.calls && c.answers <= c'.answers
    requires forall q | q in c'.calls && q !in c.calls && q.body.RequestVote? :: Describes(c', q)
    requires forall a | a in c'.answers && a !in c.answers :: a.call in c.calls
    requires forall m | m in c.nodes && m in c'.elections :: m in c.elections
    requires forall m, e | m in c.nodes && m in c'.elections && e in c'.elections[m] ::
               if e in c.elections[m] then c'.elections[m][e] <= c.elections[m][e]
               else c'.elections[m][e] == {} && e <= c'.nodes[m].term
    ensures Inv(c')
  {
    hide Answered;
    forall q | q in c'.calls && q.body.RequestVote?
      ensures Describes(c', q)
    {
      if q in c.calls { assert Describes(c, q); }
    }
    forall m, e, v | m in c'.nodes && m in c'.elections && e in c'.elections[m] && v in c'.elections[m][e]
      ensures Answered(c', m, e, v)
    {
      assert Answered(c, m, e, v);
      MoreAnswers(c, c', m, e, v);
    }
  }

  lemma MoreAnswers(c: Cluster, c': Cluster, n: NodeId, e: nat, v: NodeId)
    requires Answered(c, n, e, v) && c.answers <= c'.answers
    ensures Answered(c', n, e, v)
  {
  }

  lemma AskingKeepsInv(c: Cluster, s: Step, c': Cluster)
    requires Inv(c) && Next(c, s, c') && s.AskVote? && c.nodes.Keys == c.elections.Keys
    requires forall n | n in c.nodes :: c.nodes[n].id == n
    ensures Inv(c')
  {
    hide Next, RequestsDescribe, VotesAnswered, AnswersWereAsked;
    AskVoteEffect(c, s, c');
    MovingKeepsInv(c, c', s.n);
  }

  lemma HearingVoteKeepsInv(c: Cluster, s: Step, c': Cluster)
    requires Inv(c) && Next(c, s, c') && s.HearVoteAnswer? && c.nodes.Keys == c.elections.Keys
    ensures Inv(c')
  {
    hide Next;
    HearVoteEffect(c, s, c');
    var a := s.answer;
    var n := a.call.body.sender;
    var d := c'.(elections := c.elections);
    assert Inv(d) by { MovingKeepsInv(c, d, n); }
    forall m, e, v | m in c'.nodes && m in c'.elections && e in c'.elections[m] && v in c'.elections[m][e]
      ensures Answered(c', m, e, v)
    {
      if m in d.elections && e in d.elections[m] && v in d.elections[m][e] {
        assert Answered(d, m, e, v);
        MoreAnswers(d, c', m, e, v);
      } else {
        assert a in c'.answers && IsYes(a, m, e, v);
      }
    }
  }

  lemma StepKeepsInv(c: Cluster, s: Step, c': Cluster)
    requires Inv(c) && Next(c, s, c') && c.nodes.Keys == c.elections.Keys
    requires forall n | n in c.nodes :: c.nodes[n].id == n
    ensures Inv(c')
  {
    hide Next, Inv, HandleMessage, HearAppend, SameMembers, Wins;
    match s
    case Open(n) => OpenEffect(c, s, c'); MovingKeepsInv(c, c', n);
    case AskVote(_, _, _) => AskingKeepsInv(c, s, c');
    case Deliver(q) =>
      DeliverEffect(c, s, c');
      HandlingStaysCandidate(c.nodes[q.to], q.body);
      MovingKeepsInv(c, c', q.to);
    case HearVoteAnswer(_) => HearingVoteKeepsInv(c, s, c');
    case Count(n, _) => CountEffect(c, s, c'); MovingKeepsInv(c, c', n);
    case ClientSubmit(n, _) => SubmitEffect(c, s, c'); MovingKeepsInv(c, c', n);
    case Replicate(n, peer) => ReplicateEffect(c, s, c'); MovingKeepsInv(c, c', n);
    case HearAppendAnswer(a) =>
      HearAppendEffect(c, s, c');
      HearingStaysCandidate(c.nodes[a.call.body.sender], a.call.to, a.call.body, a.body);
      MovingKeepsInv(c, c', a.call.body.sender);
  }

  // ---------------------------------------------------------------- whole runs

  lemma InitInv(config: Config)
    ensures Inv(Init(config))
  {
  }

  lemma {:induction false} RunKeepsInv(run: Run, k: nat)
    requires run.Valid() && k < |run.states|
    ensures Inv(run.states[k])
  {
    hide Next, GoodConfig, Init, Inv;
    if k == 0 {
      InitInv(run.config);
    } else {
      RunKeepsInv(run, k - 1);
      RunConfigured(run, k - 1);
      assert Next(run.states[k - 1], run.steps[k - 1], run.states[k]);
      StepKeepsInv(run.states[k - 1], run.steps[k - 1], run.states[k]);
    }
  }

  /** Every answer was given in some step. */
  lemma {:induction false} AnswerWasGiven(run: Run, k: nat, a: Answer) returns (j: nat)
    requires run.Valid() && k < |run.states| && a in run.states[k].answers
    ensures j < k && run.steps[j] == Deliver(a.call) && a.call.to in run.states[j].nodes
    ensures a.body == HandleMessage(run.states[j].nodes[a.call.to], a.call.body).1
  {
    hide Next, GoodConfig, HandleMessage;
    var c, s := run.states[k - 1], run.steps[k - 1];
    assert Next(c, s, run.states[k]);
    if a in c.answers {
      j := AnswerWasGiven(run, k - 1, a);
    } else {
      j := k - 1;
      AnswersComeFromDeliveries(c, s, run.states[k], a);
    }
  }

  lemma AnswersComeFromDeliveries(c: Cluster, s: Step, c': Cluster, a: Answer)
    requires Next(c, s, c') && a in c'.answers && a !in c.answers
    ensures s == Deliver(a.call) && a.call.to in c.nodes
    ensures a.body == HandleMessage(c.nodes[a.call.to], a.call.body).1
  {
    hide HandleMessage, HearAppend, Submit;
  }

  /** The election restriction: if a node wins in step `k` by counting the election of its current term,
      then each voter counted had said yes in an earlier step of the run, to a request of this node in
      this term, and its log was then not ahead of the log the node wins with. */
  lemma WinnerIsNotBehind(run: Run, k: nat, v: NodeId) returns (j: nat)
    requires run.Valid() && k < |run.steps| && run.states[k].Shaped() && Enabled(run.states[k], run.steps[k])
    requires Wins(run.states[k], run.steps[k]) && CurrentWin(run.states[k], run.steps[k])
    requires v in run.states[k].elections[run.steps[k].n][run.steps[k].election]
    ensures j < k && SaysYes(run, j, v)
    ensures var n := run.steps[k].n;
            && n in run.states[k].nodes && run.steps[j].call.body.sender == n
            && run.steps[j].call.body.term == run.states[k].nodes[n].term
            && UpToDate(run.states[k].nodes[n].log, run.states[j].nodes[v].log)
  {
    hide Next, GoodConfig, Init, HandleMessage, UpToDate;
    RunKeepsInv(run, k);
    RunConfigured(run, k);
    var c, n, e := run.states[k], run.steps[k].n, run.steps[k].election;
    assert Answered(c, n, e, v);
    var a :| a in c.answers && IsYes(a, n, e, v);
    assert Describes(c, a.call);
    j := AnswerWasGiven(run, k, a);
    GrantedIff(c.nodes[n], run.states[j].nodes[v]);
  }
}
