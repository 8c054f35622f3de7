/** How far commit indices and callbacks get, over every run and without any hypothesis. */
module RaftBounds {
  import opened CoreTypes
  import opened RaftLog
  import opened RaftMedian
  import opened RaftSpec
  import opened RaftCluster
  import opened RaftCommit
  import opened RaftEffects

  /** Up to state `k` of the run some leader had committed this position. */
  ghost predicate LedTo(run: Run, k: nat, p: Position)
    requires k < |run.states|
  {
    p == -1 || exists i, m | 0 <= i <= k && m in run.states[i].nodes ::
      run.states[i].nodes[m].role == Role.Leader && p <= run.states[i].nodes[m].commitIndex
  }

  /** Up to state `k` this was the node's commit index at some time. */
  ghost predicate Reached(run: Run, k: nat, n: NodeId, p: Position)
    requires k < |run.states|
  {
    p == -1 || exists i | 0 <= i <= k && n in run.states[i].nodes :: run.states[i].nodes[n].commitIndex == p
  }

  /** The callbacks have caught up with the commit index, have gone no further than some leader's, and
      no further than the node's own ever was. */
  ghost predicate NodeBounded(run: Run, k: nat, n: NodeId)
    requires k < |run.states|
  {
    n in run.states[k].nodes ==>
      var x := run.states[k].nodes[n];
      x.commitIndex <= x.lastApplied && LedTo(run, k, x.lastApplied) && Reached(run, k, n, x.lastApplied)
  }

  ghost predicate Inv(run: Run, k: nat)
    requires k < |run.states|
  {
    && (forall n | n in run.states[k].nodes :: NodeBounded(run, k, n))
    && (forall q | q in run.states[k].calls && q.body.AppendEntries? :: LedTo(run, k, q.body.leaderCommit))
  }

  // ---------------------------------------------------------------- one step of one node

  /** The node's indices stay, or its commit index moves, with the callbacks catching up, as a leader's or
      at most to what an append request names. */
  predicate MovesWithin(x: Node, y: Node, named: Position) {
    || (y.commitIndex == x.commitIndex && y.lastApplied == x.lastApplied)
    || ((y.role == Role.Leader || y.commitIndex <= named) && y.lastApplied == Further(x.lastApplied, y.commitIndex))
  }

  lemma HandlingWithin(x: Node, m: Message)
    ensures MovesWithin(x, HandleMessage(x, m).0, if m.AppendEntries? then m.leaderCommit else -1)
  {
    hide HandleMessage, Spliced;
    match m
    case RequestVote(_, _, _, _) => VoteRequestHandled(x, m);
    case AppendEntries(_, _, _, _, _, _) => AppendRequestHandled(x, m);
    case _ => OtherMessageHandled(x, m);
  }

  lemma HearingWithin(x: Node, peer: NodeId, m: Message, answer: Message)
    requires x.Tracks() && peer in x.peers && m.AppendEntries?
    ensures MovesWithin(x, HearAppend(x, peer, m, answer), -1)
  {
    hide HearAppend, Sorted;
    if answer.AppendResponse? && answer.success {
      SortedAscends(TableAfter(x, peer, m));
      SuccessHeard(x, peer, m, answer, Sorted(TableAfter(x, peer, m)));
    } else {
      RefusalHeard(x, peer, m, answer);
    }
  }

  lemma SubmittingWithin(x: Node, command: Command)
    requires x.role == Role.Leader
    ensures MovesWithin(x, Submit(x, command), -1)
  {
    hide Submit;
    CommandSubmitted(x, command);
  }

  // ---------------------------------------------------------------- one step of the run

  lemma LaterLedTo(run: Run, k: nat, p: Position)
    requires k + 1 < |run.states| && LedTo(run, k, p)
    ensures LedTo(run, k + 1, p)
  {
  }

  lemma LowerLedTo(run: Run, k: nat, p: Position, q: Position)
    requires k < |run.states| && LedTo(run, k, p) && q <= p
    ensures LedTo(run, k, q)
  {
  }

  lemma LaterReached(run: Run, k: nat, n: NodeId, p: Position)
    requires k + 1 < |run.states| && Reached(run, k, n, p)
    ensures Reached(run, k + 1, n, p)
  {
  }

  lemma MovingStaysBounded(run: Run, k: nat, n: NodeId, m: NodeId, named: Position)
    requires k + 1 < |run.states| && Inv(run, k) && LedTo(run, k, named)
    requires n in run.states[k].nodes && n in run.states[k + 1].nodes
    requires run.states[k + 1].nodes == run.states[k].nodes[n := run.states[k + 1].nodes[n]]
    requires MovesWithin(run.states[k].nodes[n], run.states[k + 1].nodes[n], named)
    ensures NodeBounded(run, k + 1, m)
  {
    hide LedTo, Reached;
    if m in run.states[k + 1].nodes {
      assert NodeBounded(run, k, m);
      var x, y := run.states[k].nodes[m], run.states[k + 1].nodes[m];
      LaterLedTo(run, k, x.lastApplied);
      LaterReached(run, k, m, x.lastApplied);
      if m == n && y.lastApplied != x.lastApplied {
        ReachedNow(run, k + 1, n);
        if y.role == Role.Leader {
          LedNow(run, k + 1, n);
        } else {
          LowerLedTo(run, k, named, y.commitIndex);
          LaterLedTo(run, k, y.commitIndex);
        }
      }
    }
  }

  lemma LedNow(run: Run, k: nat, n: NodeId)
    requires k < |run.states| && n in run.states[k].nodes && run.states[k].nodes[n].role == Role.Leader
    ensures LedTo(run, k, run.states[k].nodes[n].commitIndex)
  {
  }

  lemma ReachedNow(run: Run, k: nat, n: NodeId)
    requires k < |run.states| && n in run.states[k].nodes
    ensures Reached(run, k, n, run.states[k].nodes[n].commitIndex)
  {
  }

  lemma MovingKeepsInv(run: Run, k: nat, n: NodeId, named: Position)
    requires k + 1 < |run.states| && Inv(run, k) && LedTo(run, k, named)
    requires n in run.states[k].nodes && n in run.states[k + 1].nodes
    requires run.states[k + 1].nodes == run.states[k].nodes[n := run.states[k + 1].nodes[n]]
    requires MovesWithin(run.states[k].nodes[n], run.states[k + 1].nodes[n], named)
    requires forall q | q in run.states[k + 1].calls && q !in run.states[k].calls && q.body.AppendEntries? ::
               q.body.leaderCommit == run.states[k].nodes[n].commitIndex
    ensures Inv(run, k + 1)
  {
    hide LedTo, Reached, MovesWithin;
    var later := k + 1;
    forall m | m in run.states[later].nodes
      ensures NodeBounded(run, later, m)
    {
      MovingStaysBounded(run, k, n, m, named);
    }
    assert NodeBounded(run, k, n);
    LowerLedTo(run, k, run.states[k].nodes[n].lastApplied, run.states[k].nodes[n].commitIndex);
    forall q | q in run.states[k + 1].calls && q.body.AppendEntries?
      ensures LedTo(run, k + 1, q.body.leaderCommit)
    {
      LaterLedTo(run, k, q.body.leaderCommit);
    }
  }

  lemma NothingNamed(run: Run, k: nat)
    requires k < |run.states|
    ensures LedTo(run, k, -1)
  {
  }

  lemma StepKeepsInv(run: Run, k: nat)
    requires k + 1 < |run.states| && k < |run.steps| && Next(run.states[k], run.steps[k], run.states[k + 1])
    requires Inv(run, k)
    ensures Inv(run, k + 1)
  {
    hide Next, LedTo, NodeBounded, HandleMessage, HearAppend, Submit, AppendRequest, SameMembers, Wins;
    var c, s, c' := run.states[k], run.steps[k], run.states[k + 1];
    NothingNamed(run, k);
    match s
    case Open(n) => OpenEffect(c, s, c'); MovingKeepsInv(run, k, n, -1);
    case AskVote(n, _, _) => AskVoteEffect(c, s, c'); MovingKeepsInv(run, k, n, -1);
    case Deliver(q) =>
      DeliverEffect(c, s, c');
      HandlingWithin(c.nodes[q.to], q.body);
      MovingKeepsInv(run, k, q.to, if q.body.AppendEntries? then q.body.leaderCommit else -1);
    case HearVoteAnswer(a) => HearVoteEffect(c, s, c'); MovingKeepsInv(run, k, a.call.body.sender, -1);
    case Count(n, _) => CountEffect(c, s, c'); MovingKeepsInv(run, k, n, -1);
    case ClientSubmit(n, command) =>
      SubmitEffect(c, s, c');
      SubmittingWithin(c.nodes[n], command);
      MovingKeepsInv(run, k, n, -1);
    case Replicate(n, peer) =>
      ReplicateEffect(c, s, c');
      AppendRequestSent(c.nodes[n], peer);
      MovingKeepsInv(run, k, n, -1);
    case HearAppendAnswer(a) =>
      HearAppendEffect(c, s, c');
      HearingWithin(c.nodes[a.call.body.sender], a.call.to, a.call.body, a.body);
      MovingKeepsInv(run, k, a.call.body.sender, -1);
  }

  lemma InitInv(run: Run)
    requires run.Valid()
    ensures Inv(run, 0)
  {
  }

  lemma {:induction false} RunKeepsInv(run: Run, k: nat)
    requires run.Valid() && k < |run.states|
    ensures Inv(run, k)
  {
    hide Next, GoodConfig, Init, Inv;
    if k == 0 {
      InitInv(run);
    } else {
      RunKeepsInv(run, k - 1);
      assert Next(run.states[k - 1], run.steps[k - 1], run.states[k]);
      StepKeepsInv(run, k - 1);
    }
  }

  /** In every state of every run, each node's callbacks have caught up with its commit index, and have
      gone exactly as far as its commit index ever was; and nobody's commit index, and nobody's callbacks,
      have gone beyond the largest commit index that a leader had reached by then. */
  lemma NobodyOutrunsTheLeaders(run: Run, k: nat, n: NodeId)
    requires run.Valid() && k < |run.states| && n in run.states[k].nodes
    ensures var x := run.states[k].nodes[n];
            && x.commitIndex <= x.lastApplied && Reached(run, k, n, x.lastApplied)
            && LedTo(run, k, x.lastApplied) && LedTo(run, k, x.commitIndex)
  {
    hide LedTo, Reached;
    RunKeepsInv(run, k);
    assert NodeBounded(run, k, n);
    LowerLedTo(run, k, run.states[k].nodes[n].lastApplied, run.states[k].nodes[n].commitIndex);
  }

  /** Over every run, a leader's commit index moves only to an entry of the leader's own term. */
  lemma LeadersCommitTheirOwnTerm(run: Run, k: nat, n: NodeId)
    requires run.Valid() && k < |run.steps|
    requires n in run.states[k].nodes && n in run.states[k + 1].nodes
    requires run.states[k + 1].nodes[n].role == Role.Leader
    requires run.states[k + 1].nodes[n].commitIndex != run.states[k].nodes[n].commitIndex
    ensures var y := run.states[k + 1].nodes[n];
            0 <= y.commitIndex < |y.log| && y.log[y.commitIndex].term == y.term
  {
    hide Next, GoodConfig, Init;
    assert Next(run.states[k], run.steps[k], run.states[k + 1]);
    LeaderCommitsByMedian(run.states[k], run.steps[k], run.states[k + 1], n);
  }
}
