/** What the commit callbacks see, over every run, including those in which elections go wrong. */
module RaftApply {
  import opened CoreTypes
  import opened RaftLog
  import opened RaftSpec
  import opened RaftMedian
  import opened RaftCluster

  /** The entry at each position carries that position as its index. */
  predicate Indexed(log: Log) {
    forall i | 0 <= i < |log| :: log[i].index == i
  }

  /** The entries of a request carry the positions they are meant for. */
  predicate RequestIndexed(m: Message)
    requires m.AppendEntries?
  {
    forall i | 0 <= i < |m.entries| :: m.entries[i].index == m.prevLogIndex + 1 + i
  }

  predicate NodeIndexed(x: Node) {
    Indexed(x.log) && Indexed(x.applied) && |x.applied| == x.lastApplied + 1
  }

  predicate IndexInv(c: Cluster) {
    && (forall n | n in c.nodes :: NodeIndexed(c.nodes[n]))
    && (forall q | q in c.calls && q.body.AppendEntries? :: RequestIndexed(q.body))
  }

  /** From `x` to `y` the callbacks got the entries of `y`'s log at the positions next in line. */
  predicate HandsOver(x: Node, y: Node) {
    && x.applied <= y.applied
    && (|x.applied| < |y.applied| ==>
          |y.applied| <= |y.log| && y.applied[|x.applied|..] == y.log[|x.applied|..|y.applied|])
  }

  // ---------------------------------------------------------------- one node

  lemma ApplyingHandsOver(x: Node)
    requires x.commitIndex < |x.log| && NodeIndexed(x)
    ensures var y := ApplyCommitted(x); NodeIndexed(y) && HandsOver(x, y)
  {
  }

  lemma MergeIsIndexed(log: Log, m: Message)
    requires m.AppendEntries? && Accepts(log, m) && Indexed(log) && RequestIndexed(m)
    ensures Indexed(Spliced(log, m.prevLogIndex + 1, m.entries))
  {
  }

  lemma HandlingHandsOver(x: Node, m: Message)
    requires NodeIndexed(x) && (m.AppendEntries? ==> RequestIndexed(m))
    ensures var y := HandleMessage(x, m).0; NodeIndexed(y) && HandsOver(x, y)
  {
    hide Spliced, Indexed, RequestIndexed, ApplyCommitted;
    if m.AppendEntries? && Accepts(x.log, m) {
      MergeIsIndexed(x.log, m);
      var log := Spliced(x.log, m.prevLogIndex + 1, m.entries);
      var y := AdoptTerm(x, m.term);
      var z := (if y.role != Follower then StepDown(y, Some(m.sender)) else y).(leaderId := Some(m.sender), log := log);
      if m.leaderCommit > x.commitIndex {
        ApplyingHandsOver(z.(commitIndex := Min(m.leaderCommit, |log| - 1)));
      }
    }
  }

  lemma UpdatingHandsOver(x: Node)
    requires x.Tracks() && NodeIndexed(x)
    ensures var y := UpdateCommitIndex(x); NodeIndexed(y) && HandsOver(x, y)
  {
    hide ApplyCommitted, Median, MatchIndices, Indexed;
    var n := Median(MatchIndices(x));
    if -1 <= n < |x.log| { ApplyingHandsOver(x.(commitIndex := n)); }
  }

  lemma HearingHandsOver(x: Node, peer: NodeId, m: Message, answer: Message)
    requires x.Tracks() && peer in x.peers && m.AppendEntries? && NodeIndexed(x)
    ensures var y := HearAppend(x, peer, m, answer); NodeIndexed(y) && HandsOver(x, y)
  {
    hide UpdateCommitIndex, Indexed;
    if answer.AppendResponse? && answer.success {
      var matched: nat := Max(x.matchIndex[peer], m.prevLogIndex + |m.entries|);
      UpdatingHandsOver(x.(matchIndex := x.matchIndex[peer := matched],
                           nextIndex := x.nextIndex[peer := matched + 1]));
    }
  }

  lemma SubmittingHandsOver(x: Node, command: Command)
    requires NodeIndexed(x)
    ensures var y := Submit(x, command); NodeIndexed(y) && HandsOver(x, y)
  {
    hide ApplyCommitted;
    var log := x.log + [LogEntry(x.term, |x.log|, command)];
    ApplyingHandsOver(x.(log := log, commitIndex := |x.log|));
  }

  lemma SendsIndexed(x: Node, peer: NodeId)
    requires Indexed(x.log) && peer in x.nextIndex
    ensures RequestIndexed(AppendRequest(x, peer))
  {
  }

  // ---------------------------------------------------------------- one step, whole runs

  lemma MovingKeepsIndices(c: Cluster, c': Cluster, n: NodeId, y: Node)
    requires IndexInv(c) && n in c.nodes && c'.nodes == c.nodes[n := y] && NodeIndexed(y)
    requires forall q | q in c'.calls && q !in c.calls && q.body.AppendEntries? :: RequestIndexed(q.body)
    requires HandsOver(c.nodes[n], y)
    ensures IndexInv(c')
    ensures forall m | m in c.nodes :: m in c'.nodes && HandsOver(c.nodes[m], c'.nodes[m])
  {
  }

  lemma IsIndexed(c: Cluster, n: NodeId)
    requires IndexInv(c) && n in c.nodes
    ensures NodeIndexed(c.nodes[n])
  {
  }

  lemma StepKeepsIndices(c: Cluster, s: Step, c': Cluster)
    requires IndexInv(c) && Next(c, s, c')
    ensures IndexInv(c')
    ensures forall m | m in c.nodes :: m in c'.nodes && HandsOver(c.nodes[m], c'.nodes[m])
  {
    hide Next, Indexed, HandleMessage, HearAppend, Submit, RequestIndexed, AppendRequest, SameMembers, Wins;
    match s
    case Open(n) => OpenEffect(c, s, c'); MovingKeepsIndices(c, c', n, c'.nodes[n]);
    case AskVote(n, _, _) => AskVoteEffect(c, s, c'); MovingKeepsIndices(c, c', n, c.nodes[n]);
    case Deliver(q) =>
      DeliverEffect(c, s, c');
      HandlingHandsOver(c.nodes[q.to], q.body);
      MovingKeepsIndices(c, c', q.to, c'.nodes[q.to]);
    case HearVoteAnswer(a) =>
      HearVoteEffect(c, s, c');
      MovingKeepsIndices(c, c', a.call.body.sender, c'.nodes[a.call.body.sender]);
    case Count(n, _) => CountEffect(c, s, c'); MovingKeepsIndices(c, c', n, c'.nodes[n]);
    case ClientSubmit(n, command) =>
      SubmitEffect(c, s, c');
      SubmittingHandsOver(c.nodes[n], command);
      MovingKeepsIndices(c, c', n, c'.nodes[n]);
    case Replicate(n, peer) =>
      ReplicateEffect(c, s, c');
      IsIndexed(c, n);
      SendsIndexed(c.nodes[n], peer);
      MovingKeepsIndices(c, c', n, c.nodes[n]);
    case HearAppendAnswer(a) =>
      HearAppendEffect(c, s, c');
      HearingHandsOver(c.nodes[a.call.body.sender], a.call.to, a.call.body, a.body);
      MovingKeepsIndices(c, c', a.call.body.sender, c'.nodes[a.call.body.sender]);
  }

  lemma InitIndexed(config: Config)
    ensures IndexInv(Init(config))
  {
  }

  lemma {:induction false} RunKeepsIndices(run: Run, k: nat)
    requires run.Valid() && k < |run.states|
    ensures IndexInv(run.states[k])
  {
    hide Next, GoodConfig, IndexInv, Init;
    if k == 0 {
      InitIndexed(run.config);
    } else {
      assert Next(run.states[k - 1], run.steps[k - 1], run.states[k]);
      RunKeepsIndices(run, k - 1);
      StepKeepsIndices(run.states[k - 1], run.steps[k - 1], run.states[k]);
    }
  }

  /** The callbacks of every node see positions 0, 1, 2, ... with no gap and no repeat, the entry at
      position `p` carries index `p`, and what they have seen is never taken back. */
  lemma {:induction false} CallbacksSeePositionsInOrder(run: Run, i: nat, k: nat, n: NodeId)
    requires run.Valid() && i <= k < |run.states| && n in run.states[i].nodes
    ensures n in run.states[k].nodes
    ensures run.states[i].nodes[n].applied <= run.states[k].nodes[n].applied
    ensures var x := run.states[k].nodes[n];
            |x.applied| == x.lastApplied + 1 && forall p | 0 <= p < |x.applied| :: x.applied[p].index == p
    decreases k
  {
    hide Next, GoodConfig, IndexInv;
    RunKeepsIndices(run, k);
    if i < k {
      CallbacksSeePositionsInOrder(run, i, k - 1, n);
      RunKeepsIndices(run, k - 1);
      assert Next(run.states[k - 1], run.steps[k - 1], run.states[k]);
      StepKeepsIndices(run.states[k - 1], run.steps[k - 1], run.states[k]);
    }
    IsIndexed(run.states[k], n);
  }

  /** Each entry handed over in a step is the node's log entry at the next position in line. */
  lemma EachStepHandsOverNextEntries(run: Run, k: nat, n: NodeId)
    requires run.Valid() && k < |run.steps| && n in run.states[k].nodes
    ensures n in run.states[k + 1].nodes
    ensures HandsOver(run.states[k].nodes[n], run.states[k + 1].nodes[n])
  {
    hide Next, GoodConfig, IndexInv, HandsOver;
    RunKeepsIndices(run, k);
    assert Next(run.states[k], run.steps[k], run.states[k + 1]);
    StepKeepsIndices(run.states[k], run.steps[k], run.states[k + 1]);
  }
}
