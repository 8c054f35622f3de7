/** Log matching (section 5.3 of the Raft paper) over every run, with appends of lower terms accepted
    as the code accepts them. */
module RaftLogMatching {
  import opened CoreTypes
  import opened RaftLog
  import opened RaftSpec
  import opened RaftCluster
  import opened RaftElections

  /** The log of each term's leader, as far as it got. */
  type TermLogs = map<nat, Log>

  predicate AnchoredAt(log: Log, i: nat, logs: TermLogs)
    requires i < |log|
  {
    var t := log[i].term;
    t in logs && i < |logs[t]| && log[..i + 1] == logs[t][..i + 1]
  }

  /** Up to each of its entries, the log is the log of that entry's leader. */
  predicate Anchored(log: Log, logs: TermLogs) {
    forall i | 0 <= i < |log| :: AnchoredAt(log, i, logs)
  }

  /** Term logs only get longer, and new terms may come. */
  predicate Grows(logs: TermLogs, logs': TermLogs) {
    forall t | t in logs :: t in logs' && logs[t] <= logs'[t]
  }

  /** The log an append request was cut from: its entries after the prefix they build on. */
  predicate Sourced(m: Message, logs: TermLogs)
    requires m.AppendEntries?
  {
    if m.prevLogIndex == -1 then Anchored(m.entries, logs)
    else
      m.prevLogTerm == 0 ||
      (&& m.prevLogTerm in logs && m.prevLogIndex < |logs[m.prevLogTerm]|
       && Anchored(logs[m.prevLogTerm][..m.prevLogIndex + 1] + m.entries, logs))
  }

  predicate NodeAnchored(x: Node, logs: TermLogs) {
    && Anchored(x.log, logs)
    && (x.role == Role.Leader ==> x.term in logs && logs[x.term] == x.log)
    && (x.role != Follower ==> x.term > 0)
  }

  predicate NodesAnchored(c: Cluster, logs: TermLogs) {
    forall n | n in c.nodes :: NodeAnchored(c.nodes[n], logs)
  }

  predicate CallsSourced(c: Cluster, logs: TermLogs) {
    forall q | q in c.calls && q.body.AppendEntries? :: Sourced(q.body, logs)
  }

  predicate TermLogsAnchored(h: History) {
    && h.termLogs.Keys == h.leaders.Keys && 0 !in h.termLogs
    && forall t | t in h.termLogs :: Anchored(h.termLogs[t], h.termLogs)
  }

  predicate LogsInv(c: Cluster, h: History) {
    NodesAnchored(c, h.termLogs) && CallsSourced(c, h.termLogs) && TermLogsAnchored(h)
  }

  // ---------------------------------------------------------------- anchored logs

  lemma AnchoredLogsMatch(a: Log, b: Log, logs: TermLogs)
    requires Anchored(a, logs) && Anchored(b, logs)
    ensures LogsMatch(a, b)
  {
    forall i | 0 <= i < |a| && i < |b| && a[i].term == b[i].term
      ensures a[..i + 1] == b[..i + 1]
    {
      assert AnchoredAt(a, i, logs) && AnchoredAt(b, i, logs);
    }
  }

  lemma AnchoredStays(log: Log, logs: TermLogs, logs': TermLogs)
    requires Anchored(log, logs) && Grows(logs, logs')
    ensures Anchored(log, logs')
  {
    forall i | 0 <= i < |log|
      ensures AnchoredAt(log, i, logs')
    {
      assert AnchoredAt(log, i, logs);
      var t := log[i].term;
      assert logs[t][..i + 1] == logs'[t][..i + 1];
    }
  }

  lemma SourcedStays(m: Message, logs: TermLogs, logs': TermLogs)
    requires m.AppendEntries? && Sourced(m, logs) && Grows(logs, logs')
    ensures Sourced(m, logs')
  {
    hide Anchored;
    if m.prevLogIndex == -1 {
      AnchoredStays(m.entries, logs, logs');
    } else if m.prevLogTerm != 0 {
      var k := m.prevLogIndex + 1;
      AnchoredStays(logs[m.prevLogTerm][..k] + m.entries, logs, logs');
      assert logs[m.prevLogTerm][..k] == logs'[m.prevLogTerm][..k];
    }
  }

  /** What is sent is a piece of the sender's log. */
  lemma RequestIsSourced(x: Node, peer: NodeId, logs: TermLogs)
    requires Anchored(x.log, logs) && peer in x.nextIndex
    ensures Sourced(AppendRequest(x, peer), logs)
  {
    var m := AppendRequest(x, peer);
    var next := x.nextIndex[peer];
    if next == 0 {
      assert m.entries == x.log;
    } else if next - 1 < |x.log| {
      assert AnchoredAt(x.log, next - 1, logs);
      assert m.entries == x.log[next..];
      assert logs[m.prevLogTerm][..next] + m.entries == x.log;
    }
  }

  /** An accepted append leaves an anchored log: the follower's own or the sender's. */
  lemma MergeIsAnchored(log: Log, m: Message, logs: TermLogs)
    requires m.AppendEntries? && Accepts(log, m)
    requires Anchored(log, logs) && Sourced(m, logs) && 0 !in logs
    ensures Anchored(Spliced(log, m.prevLogIndex + 1, m.entries), logs)
    ensures var at: nat := m.prevLogIndex + 1;
            var source := log[..at] + m.entries;
            && Anchored(source, logs) && source <= Spliced(log, at, m.entries)
  {
    hide Anchored, LogsMatch, Spliced;
    var at: nat := m.prevLogIndex + 1;
    var source := log[..at] + m.entries;
    assert Anchored(source, logs) by {
      if at == 0 {
        assert source == m.entries;
      } else {
        AnchoredEntry(log, at - 1, logs);
        assert log[..at] == logs[m.prevLogTerm][..at];
      }
    }
    AnchoredLogsMatch(log, source, logs);
    assert m.entries == source[at..];
    SplicedAdoptsSource(log, source, at, m.entries);
  }

  lemma AnchoredEntry(log: Log, i: nat, logs: TermLogs)
    requires Anchored(log, logs) && i < |log|
    ensures AnchoredAt(log, i, logs)
  {
  }

  // ---------------------------------------------------------------- one step

  lemma NodesStay(c: Cluster, logs: TermLogs, c': Cluster, logs': TermLogs, n: NodeId)
    requires NodesAnchored(c, logs) && Grows(logs, logs') && n in c'.nodes
    requires forall m | m in c'.nodes && m != n :: m in c.nodes && c'.nodes[m] == c.nodes[m]
    requires forall m | m in c'.nodes && m != n && c.nodes[m].role == Role.Leader && c.nodes[m].term in logs ::
               logs'[c.nodes[m].term] == logs[c.nodes[m].term]
    requires NodeAnchored(c'.nodes[n], logs')
    ensures NodesAnchored(c', logs')
  {
    hide Anchored;
    forall m | m in c'.nodes
      ensures NodeAnchored(c'.nodes[m], logs')
    {
      if m != n {
        assert NodeAnchored(c.nodes[m], logs);
        AnchoredStays(c.nodes[m].log, logs, logs');
      }
    }
  }

  lemma CallsStay(c: Cluster, logs: TermLogs, c': Cluster, logs': TermLogs)
    requires CallsSourced(c, logs) && Grows(logs, logs')
    requires forall q | q in c'.calls && q !in c.calls && q.body.AppendEntries? :: Sourced(q.body, logs')
    ensures CallsSourced(c', logs')
  {
    hide Sourced;
    forall q | q in c'.calls && q.body.AppendEntries?
      ensures Sourced(q.body, logs')
    {
      if q in c.calls { SourcedStays(q.body, logs, logs'); }
    }
  }

  /** What handling a message does to a node's log and leadership. */
  lemma HandlingLogs(x: Node, m: Message)
    ensures var y := HandleMessage(x, m).0;
            && y.log == (if m.AppendEntries? && Accepts(x.log, m)
                         then Spliced(x.log, m.prevLogIndex + 1, m.entries) else x.log)
            && (y.role != Follower ==> y.role == x.role && y.term == x.term && y.log == x.log)
  {
    hide Spliced, Accepts, FollowCommit;
  }

  /** Steps after which a node has the log it had, and leads only if it did before. */
  lemma SameLogStep(c: Cluster, h: History, c': Cluster, h': History, n: NodeId)
    requires LogsInv(c, h) && n in c.nodes && n in c'.nodes && c'.nodes == c.nodes[n := c'.nodes[n]]
    requires c'.calls == c.calls
    requires h'.termLogs == h.termLogs && h'.leaders == h.leaders
    requires var x, y := c.nodes[n], c'.nodes[n];
             && y.log == x.log && (y.role == Role.Leader ==> x.role == Role.Leader && y.term == x.term)
             && (y.role != Follower ==> y.term > 0)
    ensures LogsInv(c', h')
  {
  }

  lemma SameTermLogs(h: History, h': History)
    requires TermLogsAnchored(h) && h'.termLogs == h.termLogs && h'.leaders == h.leaders
    ensures TermLogsAnchored(h')
  {
  }

  lemma OpeningKeepsLogs(c: Cluster, s: Step, c': Cluster, h: History)
    requires LogsInv(c, h) && Next(c, s, c') && s.Open?
    ensures LogsInv(c', Record(c, s, h))
  {
    hide Next, Enabled, Record, LogsInv;
    NextIsEnabled(c, s, c');
    RecordEffect(c, s, h);
    OpenEffect(c, s, c');
    SameLogStep(c, h, c', Record(c, s, h), s.n);
  }

  lemma NodeIsAnchored(c: Cluster, h: History, n: NodeId)
    requires LogsInv(c, h) && n in c.nodes
    ensures NodeAnchored(c.nodes[n], h.termLogs) && 0 !in h.termLogs
  {
  }

  lemma HearingLogs(x: Node, peer: NodeId, m: Message, answer: Message)
    requires x.Tracks() && peer in x.peers && m.AppendEntries?
    ensures var y := HearAppend(x, peer, m, answer);
            y.log == x.log && (y.role != Follower ==> y.role == x.role && y.term == x.term)
  {
    hide UpdateCommitIndex;
  }

  lemma HearingKeepsLogs(c: Cluster, s: Step, c': Cluster, h: History)
    requires LogsInv(c, h) && Next(c, s, c') && (s.HearVoteAnswer? || s.HearAppendAnswer?)
    ensures LogsInv(c', Record(c, s, h))
  {
    hide Next, Enabled, Record, LogsInv, Anchored, HearAppend;
    NextIsEnabled(c, s, c');
    RecordEffect(c, s, h);
    var q := s.answer.call;
    if s.HearVoteAnswer? {
      HearVoteEffect(c, s, c');
    } else {
      HearAppendEffect(c, s, c');
      HearingLogs(c.nodes[q.body.sender], q.to, q.body, s.answer.body);
    }
    NodeIsAnchored(c, h, q.body.sender);
    SameLogStep(c, h, c', Record(c, s, h), q.body.sender);
  }

  lemma SendingKeepsLogs(c: Cluster, s: Step, c': Cluster, h: History)
    requires LogsInv(c, h) && Next(c, s, c') && (s.AskVote? || s.Replicate?)
    ensures LogsInv(c', Record(c, s, h))
  {
    hide Next, Enabled, Record, Anchored, NodeAnchored, Sourced, TermLogsAnchored;
    NextIsEnabled(c, s, c');
    RecordEffect(c, s, h);
    if s.AskVote? {
      AskVoteEffect(c, s, c');
    } else {
      ReplicateEffect(c, s, c');
      NodeIsAnchored(c, h, s.n);
      SendsOwnLog(c.nodes[s.n], s.peer, h.termLogs);
    }
    CallsStay(c, h.termLogs, c', h.termLogs);
  }

  lemma SendsOwnLog(x: Node, peer: NodeId, logs: TermLogs)
    requires NodeAnchored(x, logs) && peer in x.nextIndex
    ensures Sourced(AppendRequest(x, peer), logs)
  {
    RequestIsSourced(x, peer, logs);
  }

  lemma DeliveryKeepsNode(c: Cluster, q: Call, h: History)
    requires LogsInv(c, h) && q in c.calls && q.to in c.nodes
    ensures NodeAnchored(HandleMessage(c.nodes[q.to], q.body).0, h.termLogs)
  {
    hide Anchored, HandleMessage, Spliced, Sourced, Accepts;
    HandlingLogs(c.nodes[q.to], q.body);
    NodeIsAnchored(c, h, q.to);
    if q.body.AppendEntries? && Accepts(c.nodes[q.to].log, q.body) {
      MergeIsAnchored(c.nodes[q.to].log, q.body, h.termLogs);
    }
  }

  lemma DeliveryKeepsLogs(c: Cluster, s: Step, c': Cluster, h: History)
    requires LogsInv(c, h) && Next(c, s, c') && s.Deliver?
    ensures LogsInv(c', Record(c, s, h))
  {
    hide Next, Enabled, Record, Anchored, NodeAnchored, HandleMessage, TermLogsAnchored;
    NextIsEnabled(c, s, c');
    RecordEffect(c, s, h);
    DeliverEffect(c, s, c');
    DeliveryKeepsNode(c, s.call, h);
    NodesStay(c, h.termLogs, c', h.termLogs, s.call.to);
    SameTermLogs(h, Record(c, s, h));
  }

  lemma CountingKeepsLogs(c: Cluster, s: Step, c': Cluster, h: History)
    requires LogsInv(c, h) && Next(c, s, c') && s.Count?
    requires Wins(c, s) ==> c.nodes[s.n].term !in h.leaders
    ensures LogsInv(c', Record(c, s, h))
  {
    hide Next, Enabled, Record, Wins, Anchored, LogsInv;
    NextIsEnabled(c, s, c');
    RecordEffect(c, s, h);
    CountEffect(c, s, c');
    NodeIsAnchored(c, h, s.n);
    if Wins(c, s) {
      WinKeepsLogs(c, h, c', Record(c, s, h), s.n, c'.nodes[s.n]);
    } else {
      SameLogStep(c, h, c', Record(c, s, h), s.n);
    }
  }

  /** A node becomes the first leader of its term, whose log starts out as the node's. */
  lemma WinKeepsLogs(c: Cluster, h: History, c': Cluster, h': History, n: NodeId, y: Node)
    requires LogsInv(c, h) && n in c.nodes && c'.nodes == c.nodes[n := y] && c'.calls == c.calls
    requires c.nodes[n].role != Follower && y.log == c.nodes[n].log && y.term == c.nodes[n].term
    requires y.term !in h.leaders
    requires h'.leaders == h.leaders[y.term := n] && h'.termLogs == h.termLogs[y.term := y.log]
    ensures LogsInv(c', h')
  {
    hide Anchored, Sourced;
    NodeIsAnchored(c, h, n);
    AnchoredStays(y.log, h.termLogs, h'.termLogs);
    NodesStay(c, h.termLogs, c', h'.termLogs, n);
    CallsStay(c, h.termLogs, c', h'.termLogs);
    TermLogsGrow(h, h', y.term);
  }

  lemma TermLogsGrow(h: History, h': History, t: nat)
    requires TermLogsAnchored(h) && Grows(h.termLogs, h'.termLogs) && t > 0
    requires h'.termLogs.Keys == h'.leaders.Keys == h.termLogs.Keys + {t}
    requires forall u | u in h.termLogs && u != t :: h'.termLogs[u] == h.termLogs[u]
    requires Anchored(h'.termLogs[t], h'.termLogs)
    ensures TermLogsAnchored(h')
  {
    hide Anchored;
    forall u | u in h'.termLogs
      ensures Anchored(h'.termLogs[u], h'.termLogs)
    {
      if u != t { AnchoredStays(h.termLogs[u], h.termLogs, h'.termLogs); }
    }
  }

  lemma ExtendedIsAnchored(log: Log, e: LogEntry, logs: TermLogs, logs': TermLogs)
    requires Anchored(log, logs) && Grows(logs, logs')
    requires e.term in logs' && logs'[e.term] == log + [e]
    ensures Anchored(log + [e], logs')
  {
    AnchoredStays(log, logs, logs');
    forall i | 0 <= i < |log| + 1
      ensures AnchoredAt(log + [e], i, logs')
    {
      if i < |log| {
        assert AnchoredAt(log, i, logs');
        assert (log + [e])[..i + 1] == log[..i + 1];
      }
    }
  }

  lemma SubmittingKeepsLogs(c: Cluster, s: Step, c': Cluster, h: History)
    requires LogsInv(c, h) && AllRoles(c, h) && Next(c, s, c') && s.ClientSubmit?
    ensures LogsInv(c', Record(c, s, h))
  {
    hide Next, Enabled, Record, Anchored, Sourced, SameMembers, ApplyCommitted;
    NextIsEnabled(c, s, c');
    RecordEffect(c, s, h);
    SubmitEffect(c, s, c');
    var n, h' := s.n, Record(c, s, h);
    var x, y := c.nodes[n], c'.nodes[n];
    var e := LogEntry(x.term, |x.log|, s.command);
    NodeIsAnchored(c, h, n);
    assert RoleKept(c, h, n);
    ExtendedIsAnchored(x.log, e, h.termLogs, h'.termLogs);
    forall m | m in c'.nodes && m != n && c.nodes[m].role == Role.Leader && c.nodes[m].term in h.termLogs
      ensures h'.termLogs[c.nodes[m].term] == h.termLogs[c.nodes[m].term]
    {
      assert RoleKept(c, h, m);
    }
    NodesStay(c, h.termLogs, c', h'.termLogs, n);
    CallsStay(c, h.termLogs, c', h'.termLogs);
    TermLogsGrow(h, h', x.term);
  }

  lemma StepKeepsLogs(c: Cluster, s: Step, c': Cluster, h: History, config: Config)
    requires LogsInv(c, h) && VotesInv(c, h, config) && Configured(c, config) && GoodConfig(config)
    requires Next(c, s, c') && CurrentWin(c, s)
    ensures LogsInv(c', Record(c, s, h))
  {
    hide LogsInv, Configured, Next, Enabled, Record, CurrentWin, GoodConfig, Wins,
         BallotsKept, AllHonest, AllElections, AllMandated, AllRoles;
    NextIsEnabled(c, s, c');
    match s
    case Open(_) => OpeningKeepsLogs(c, s, c', h);
    case AskVote(_, _, _) => SendingKeepsLogs(c, s, c', h);
    case Deliver(_) => DeliveryKeepsLogs(c, s, c', h);
    case HearVoteAnswer(_) => HearingKeepsLogs(c, s, c', h);
    case Count(_, _) =>
      if Wins(c, s) { CurrentWinIsFirst(c, s, h, config); }
      CountingKeepsLogs(c, s, c', h);
    case ClientSubmit(_, _) => SubmittingKeepsLogs(c, s, c', h);
    case Replicate(_, _) => SendingKeepsLogs(c, s, c', h);
    case HearAppendAnswer(_) => HearingKeepsLogs(c, s, c', h);
  }

  // ---------------------------------------------------------------- whole runs

  lemma {:induction false} RunKeepsLogs(run: Run, k: nat)
    requires run.Valid() && AllWinsCurrent(run) && k < |run.states|
    ensures LogsInv(run.states[k], HistoryAt(run, k))
  {
    hide VotesInv, Configured, GoodConfig, Record, Next, CurrentWin;
    if k > 0 {
      var c, s := run.states[k - 1], run.steps[k - 1];
      assert Next(c, s, run.states[k]) && CurrentWin(c, s);
      RunKeepsLogs(run, k - 1);
      RunKeepsVotes(run, k - 1);
      StepKeepsLogs(c, s, run.states[k], HistoryAt(run, k - 1), run.config);
    }
  }

  lemma StepGrowsTermLogs(c: Cluster, s: Step, c': Cluster, h: History, config: Config)
    requires LogsInv(c, h) && VotesInv(c, h, config) && Configured(c, config) && GoodConfig(config)
    requires Next(c, s, c') && CurrentWin(c, s)
    ensures Grows(h.termLogs, Record(c, s, h).termLogs)
  {
    hide Configured, Next, Enabled, Record, CurrentWin, GoodConfig, Wins, Anchored, CallsSourced,
         BallotsKept, AllHonest, AllElections, AllMandated, HandleMessage;
    NextIsEnabled(c, s, c');
    RecordEffect(c, s, h);
    if Wins(c, s) { CurrentWinIsFirst(c, s, h, config); }
    if s.ClientSubmit? {
      SubmitEffect(c, s, c');
      NodeIsAnchored(c, h, s.n);
    }
  }

  /** A leader's log only grows while it leads, so the logs of the terms only grow over a run. */
  lemma {:induction false} TermLogsOnlyGrow(run: Run, i: nat, k: nat)
    requires run.Valid() && AllWinsCurrent(run) && i <= k < |run.states|
    ensures Grows(HistoryAt(run, i).termLogs, HistoryAt(run, k).termLogs)
    decreases k
  {
    hide VotesInv, LogsInv, Configured, GoodConfig, Record, Next, CurrentWin;
    if i < k {
      var c, s := run.states[k - 1], run.steps[k - 1];
      assert Next(c, s, run.states[k]) && CurrentWin(c, s);
      TermLogsOnlyGrow(run, i, k - 1);
      RunKeepsVotes(run, k - 1);
      RunKeepsLogs(run, k - 1);
      StepGrowsTermLogs(c, s, run.states[k], HistoryAt(run, k - 1), run.config);
    }
  }

  /** Log matching: if the logs of two nodes, at any two moments of a run, hold entries of the same
      term at the same position, then they are the same log up to and including it. */
  lemma LogMatching(run: Run, i: nat, k: nat, a: NodeId, b: NodeId)
    requires run.Valid() && AllWinsCurrent(run) && i <= k < |run.states|
    requires a in run.states[i].nodes && b in run.states[k].nodes
    ensures LogsMatch(run.states[i].nodes[a].log, run.states[k].nodes[b].log)
  {
    hide VotesInv, LogsInv, Next, GoodConfig, CurrentWin, Anchored, Grows, HistoryAt;
    RunKeepsLogs(run, i);
    RunKeepsLogs(run, k);
    TermLogsOnlyGrow(run, i, k);
    NodeIsAnchored(run.states[i], HistoryAt(run, i), a);
    NodeIsAnchored(run.states[k], HistoryAt(run, k), b);
    AnchoredStays(run.states[i].nodes[a].log, HistoryAt(run, i).termLogs, HistoryAt(run, k).termLogs);
    AnchoredLogsMatch(run.states[i].nodes[a].log, run.states[k].nodes[b].log, HistoryAt(run, k).termLogs);
  }
}
