/** Repeated exchanges bring one follower's log in line with the sender's. */
module RaftConvergence {
  import opened CoreTypes
  import opened RaftLog
  import opened RaftSpec
  import opened RaftCluster
  import opened RaftElections
  import opened RaftLogMatching

  /** One append request sent, handled and answered: `x` sends to `peer`, whose node is `y`. */
  function Exchange(x: Node, peer: NodeId, y: Node): (r: (Node, Node))
    requires x.Tracks() && peer in x.peers
    ensures Keeps(x, r.0)
  {
    var m := AppendRequest(x, peer);
    var (y', answer) := HandleMessage(y, m);
    (HearAppend(x, peer, m, answer), y')
  }

  function Rounds(x: Node, peer: NodeId, y: Node, k: nat): (Node, Node)
    requires x.Tracks() && peer in x.peers
    decreases k
  {
    if k == 0 then (x, y)
    else
      var (x', y') := Exchange(x, peer, y);
      Rounds(x', peer, y', k - 1)
  }

  predicate PositiveTerms(log: Log) {
    forall i | 0 <= i < |log| :: log[i].term > 0
  }

  lemma HandlingAnswers(y: Node, m: Message)
    requires m.AppendEntries?
    ensures var (y', a) := HandleMessage(y, m);
            && a.AppendResponse? && (a.success <==> Accepts(y.log, m))
            && y'.log == if a.success then Spliced(y.log, m.prevLogIndex + 1, m.entries) else y.log
  {
    hide Spliced, Accepts, FollowCommit;
  }

  lemma HearingMoves(x: Node, peer: NodeId, m: Message, answer: Message)
    requires x.Tracks() && peer in x.peers && m.AppendEntries? && answer.AppendResponse?
    ensures var x' := HearAppend(x, peer, m, answer);
            && Keeps(x, x') && x'.log == x.log
            && x'.matchIndex[peer] >= x.matchIndex[peer]
            && (if answer.success then x'.matchIndex[peer] >= m.prevLogIndex + |m.entries|
                else x'.nextIndex[peer] == if x.nextIndex[peer] > 0 then x.nextIndex[peer] - 1 else 0)
  {
  }

  lemma EmptySplice(log: Log, at: nat)
    requires at <= |log|
    ensures Spliced(log, at, []) == log
  {
  }

  /** What one exchange does: it either makes the follower's log begin with the sender's and tells
      the sender so, or leaves the follower's log as it was and moves the sender one entry back. */
  lemma ExchangeAdvances(x: Node, peer: NodeId, y: Node)
    requires x.Tracks() && peer in x.peers
    requires LogsMatch(y.log, x.log) && PositiveTerms(y.log)
    ensures var (x', y') := Exchange(x, peer, y);
            && x'.log == x.log
            && ((x.log <= y'.log && x'.matchIndex[peer] >= |x.log| - 1)
                || (y'.log == y.log && x.nextIndex[peer] > 0 && x'.nextIndex[peer] == x.nextIndex[peer] - 1))
  {
    hide HandleMessage, HearAppend, Spliced, LogsMatch;
    var m := AppendRequest(x, peer);
    HandlingAnswers(y, m);
    var (y', answer) := HandleMessage(y, m);
    HearingMoves(x, peer, m, answer);
    if answer.success {
      var at: nat := m.prevLogIndex + 1;
      assert at <= |x.log|;
      assert m.entries == x.log[at..];
      SplicedAdoptsSource(y.log, x.log, at, m.entries);
    }
  }

  /** Once the follower's log begins with the sender's, exchanges leave it alone. */
  lemma ExchangeKeepsPrefix(x: Node, peer: NodeId, y: Node)
    requires x.Tracks() && peer in x.peers && x.log <= y.log
    ensures var (x', y') := Exchange(x, peer, y);
            x'.log == x.log && y'.log == y.log && x'.matchIndex[peer] >= x.matchIndex[peer]
  {
    hide HandleMessage, HearAppend, Spliced;
    var m := AppendRequest(x, peer);
    HandlingAnswers(y, m);
    var (y', answer) := HandleMessage(y, m);
    HearingMoves(x, peer, m, answer);
    if answer.success {
      var at: nat := m.prevLogIndex + 1;
      if at <= |x.log| {
        assert m.entries == x.log[at..];
        LateAppendChangesNothing(y.log, x.log, at, m.entries);
      } else {
        EmptySplice(y.log, at);
      }
    }
  }

  lemma {:induction false} RoundsKeepPrefix(x: Node, peer: NodeId, y: Node, k: nat)
    requires x.Tracks() && peer in x.peers && x.log <= y.log && x.matchIndex[peer] >= |x.log| - 1
    ensures var (x', y') := Rounds(x, peer, y, k);
            x'.log == x.log && y'.log == y.log && peer in x'.matchIndex && x'.matchIndex[peer] >= |x.log| - 1
    decreases k
  {
    hide Exchange;
    if k > 0 {
      ExchangeKeepsPrefix(x, peer, y);
      var (x', y') := Exchange(x, peer, y);
      RoundsKeepPrefix(x', peer, y', k - 1);
    }
  }

  /** Replication converges: whatever the follower's log was, as long as it matches the sender's in
      the sense of log matching, after `next_index + 1` exchanges or more it begins with the whole of
      the sender's log, which has not changed, and the sender's table says so. */
  lemma {:induction false} ReplicationConverges(x: Node, peer: NodeId, y: Node, k: nat)
    requires x.Tracks() && peer in x.peers
    requires LogsMatch(y.log, x.log) && PositiveTerms(y.log)
    requires k >= x.nextIndex[peer] + 1
    ensures var (x', y') := Rounds(x, peer, y, k);
            && x'.log == x.log && x.log <= y'.log
            && peer in x'.matchIndex && x'.matchIndex[peer] >= |x.log| - 1
    decreases k
  {
    hide Exchange, LogsMatch, PositiveTerms;
    ExchangeAdvances(x, peer, y);
    var (x', y') := Exchange(x, peer, y);
    if x.log <= y'.log && x'.matchIndex[peer] >= |x.log| - 1 {
      RoundsKeepPrefix(x', peer, y', k - 1);
    } else {
      ReplicationConverges(x', peer, y', k - 1);
    }
  }

  lemma AnchoredIsPositive(log: Log, logs: TermLogs)
    requires Anchored(log, logs) && 0 !in logs
    ensures PositiveTerms(log)
  {
    forall i | 0 <= i < |log|
      ensures log[i].term > 0
    {
      assert AnchoredAt(log, i, logs);
    }
  }

  /** The same for any two nodes in any reachable cluster state: log matching is what it takes. */
  lemma ReplicationConvergesInEveryRun(run: Run, i: nat, a: NodeId, b: NodeId, k: nat)
    requires run.Valid() && AllWinsCurrent(run) && i < |run.states|
    requires a in run.states[i].nodes && b in run.states[i].nodes && b in run.states[i].nodes[a].peers
    requires run.states[i].nodes[a].Tracks() && k >= run.states[i].nodes[a].nextIndex[b] + 1
    ensures run.states[i].nodes[a].log <= Rounds(run.states[i].nodes[a], b, run.states[i].nodes[b], k).1.log
  {
    hide Rounds, Next, GoodConfig, VotesInv, LogsInv, HistoryAt, Anchored, Init;
    LogMatching(run, i, i, b, a);
    RunKeepsLogs(run, i);
    NodeIsAnchored(run.states[i], HistoryAt(run, i), b);
    AnchoredIsPositive(run.states[i].nodes[b].log, HistoryAt(run, i).termLogs);
    ReplicationConverges(run.states[i].nodes[a], b, run.states[i].nodes[b], k);
  }
}
