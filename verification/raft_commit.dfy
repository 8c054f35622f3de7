/** Which nodes stand behind a leader's commit index. */
module RaftCommit {
  import opened CoreTypes
  import opened RaftLog
  import opened RaftSpec
  import opened RaftMedian
  import opened RaftCluster
  import opened RaftElections
  import opened RaftLogMatching

  /** The request is a piece of `log` as it stands. */
  predicate CutFrom(m: Message, log: Log)
    requires m.AppendEntries?
  {
    && m.prevLogIndex + 1 + |m.entries| <= |log|
    && m.entries == log[m.prevLogIndex + 1..m.prevLogIndex + 1 + |m.entries|]
    && (m.prevLogIndex >= 0 ==> m.prevLogTerm == log[m.prevLogIndex].term)
  }

  /** No log accepts a request that builds on an entry of term 0. */
  predicate Acceptable(m: Message)
    requires m.AppendEntries?
  {
    m.prevLogIndex == -1 || m.prevLogTerm > 0
  }

  /** What a node sent in its current term, while it stands or leads, is still in its log. */
  predicate OwnCalls(c: Cluster) {
    forall q | q in c.calls && q.body.AppendEntries? && q.body.sender in c.nodes ::
      OwnCall(q.body, c.nodes[q.body.sender])
  }

  predicate OwnCall(m: Message, x: Node)
    requires m.AppendEntries?
  {
    m.term == x.term && x.role != Follower && Acceptable(m) ==> CutFrom(m, x.log)
  }

  predicate GoodReceipt(r: Receipt, logs: TermLogs) {
    r.call.body.AppendEntries? && Acceptable(r.call.body) && CutFrom(r.call.body, r.log) && Anchored(r.log, logs)
  }

  predicate ReceiptsGood(h: History) {
    forall r | r in h.receipts :: GoodReceipt(r, h.termLogs)
  }

  predicate AnswersReceipted(c: Cluster, h: History) {
    forall a | a in c.answers && a.body.AppendResponse? && a.body.success ::
      exists r | r in h.receipts :: r.call == a.call
  }

  /** Receipt `r` shows that `peer`, answering a request `n` sent in `term`, held `prefix`. */
  predicate Backs(r: Receipt, peer: NodeId, n: NodeId, term: nat, prefix: Log) {
    && r.call.to == peer && r.call.body.AppendEntries?
    && r.call.body.sender == n && r.call.body.term == term && prefix <= r.log
  }

  predicate Backed(h: History, peer: NodeId, x: Node, k: nat) {
    k == 0 || (k < |x.log| && exists r | r in h.receipts :: Backs(r, peer, x.id, x.term, x.log[..k + 1]))
  }

  predicate ProgressBacked(c: Cluster, h: History) {
    forall n, p | n in c.nodes && c.nodes[n].role == Role.Leader
                  && p in c.nodes[n].peers && p in c.nodes[n].matchIndex ::
      Backed(h, p, c.nodes[n], c.nodes[n].matchIndex[p])
  }

  predicate AcksInv(c: Cluster, h: History) {
    OwnCalls(c) && ReceiptsGood(h) && AnswersReceipted(c, h) && ProgressBacked(c, h)
  }

  /** A leader takes a success only as the answer to a request of its own leadership. */
  predicate FreshAck(c: Cluster, s: Step) {
    s.HearAppendAnswer? && s.answer.body.AppendResponse? && s.answer.body.success
    && s.answer.call.body.sender in c.nodes && c.nodes[s.answer.call.body.sender].role == Role.Leader
    ==> s.answer.call.body.term == c.nodes[s.answer.call.body.sender].term
  }

  ghost predicate AllAcksFresh(run: Run)
    requires run.Valid()
  {
    forall i | 0 <= i < |run.steps| :: FreshAck(run.states[i], run.steps[i])
  }

  // ---------------------------------------------------------------- requests and receipts

  /** Who accepted a piece of a leader's log holds the leader's log up to the end of that piece. */
  lemma ReceiptBacksSender(m: Message, log: Log, held: Log, logs: TermLogs)
    requires m.AppendEntries? && CutFrom(m, log) && CutFrom(m, held)
    requires Anchored(log, logs) && Anchored(held, logs)
    ensures log[..m.prevLogIndex + 1 + |m.entries|] <= held
  {
    hide Anchored, LogsMatch;
    var at: nat := m.prevLogIndex + 1;
    var end := at + |m.entries|;
    AnchoredLogsMatch(log, held, logs);
    MatchingPrefix(log, held, at);
    assert log[..end] == log[..at] + log[at..end];
    assert held[..end] == held[..at] + held[at..end];
  }

  lemma MatchingPrefix(a: Log, b: Log, at: nat)
    requires LogsMatch(a, b) && at <= |a| && at <= |b|
    requires at > 0 ==> a[at - 1].term == b[at - 1].term
    ensures a[..at] == b[..at]
  {
  }

  lemma SendsOwnCall(x: Node, peer: NodeId)
    requires peer in x.nextIndex
    ensures OwnCall(AppendRequest(x, peer), x)
  {
    var m := AppendRequest(x, peer);
    var next := x.nextIndex[peer];
    if next <= |x.log| {
      hide CutFrom;
      WholeTailIsCut(m, x.log, next);
    }
  }

  lemma WholeTailIsCut(m: Message, log: Log, next: nat)
    requires m.AppendEntries? && next <= |log| && m.prevLogIndex == next - 1
    requires m.entries == if next < |log| then log[next..] else []
    requires 0 < next ==> m.prevLogTerm == log[next - 1].term
    ensures CutFrom(m, log)
  {
  }

  lemma AcceptedIsReceipted(x: Node, m: Message, logs: TermLogs)
    requires NodeAnchored(x, logs) && 0 !in logs
    requires m.AppendEntries? ==> Sourced(m, logs)
    ensures var (y, a) := HandleMessage(x, m);
            a.AppendResponse? && a.success ==>
              m.AppendEntries? && Acceptable(m) && CutFrom(m, y.log) && Anchored(y.log, logs)
  {
    hide Anchored, Spliced, Sourced, FollowCommit;
    HandlingLogs(x, m);
    if m.AppendEntries? && Accepts(x.log, m) {
      var at: nat := m.prevLogIndex + 1;
      MergeIsAnchored(x.log, m, logs);
      var r := Spliced(x.log, at, m.entries);
      assert (x.log[..at] + m.entries)[at..at + |m.entries|] == m.entries;
      assert r[..at + |m.entries|] == x.log[..at] + m.entries;
      if at > 0 {
        AnchoredEntry(x.log, at - 1, logs);
        assert r[at - 1] == (x.log[..at] + m.entries)[at - 1];
      }
    }
  }

  // ---------------------------------------------------------------- one step

  /** The sender's side of a step: it keeps standing or leading in its term only with a log that
      has grown. */
  predicate KeepsLog(x: Node, y: Node) {
    y.role != Follower && y.term <= x.term ==> y.term == x.term && x.role != Follower && x.log <= y.log
  }

  lemma OwnCallStays(m: Message, x: Node, y: Node)
    requires m.AppendEntries? && OwnCall(m, x) && KeepsLog(x, y) && m.term <= x.term
    ensures OwnCall(m, y)
  {
    hide CutFrom;
    if m.term == y.term && y.role != Follower && Acceptable(m) {
      CutFromGrows(m, x.log, y.log);
    }
  }

  lemma CutFromGrows(m: Message, log: Log, longer: Log)
    requires m.AppendEntries? && CutFrom(m, log) && log <= longer
    ensures CutFrom(m, longer)
  {
  }

  lemma OwnCallsStay(c: Cluster, h: History, c': Cluster, n: NodeId)
    requires OwnCalls(c) && AllHonest(c, h) && n in c.nodes && n in c'.nodes && c'.nodes == c.nodes[n := c'.nodes[n]]
    requires KeepsLog(c.nodes[n], c'.nodes[n])
    requires forall q | q in c'.calls && q !in c.calls && q.body.AppendEntries? ::
               q.body.sender in c'.nodes && OwnCall(q.body, c'.nodes[q.body.sender])
    ensures OwnCalls(c')
  {
    hide OwnCall, KeepsLog;
    forall q | q in c'.calls && q.body.AppendEntries? && q.body.sender in c'.nodes
      ensures OwnCall(q.body, c'.nodes[q.body.sender])
    {
      if q in c.calls {
        assert HonestCall(c, q);
        if q.body.sender == n { OwnCallStays(q.body, c.nodes[n], c'.nodes[n]); }
      }
    }
  }

  lemma ReceiptsStay(h: History, h': History)
    requires ReceiptsGood(h) && Grows(h.termLogs, h'.termLogs)
    requires forall r | r in h'.receipts && r !in h.receipts :: GoodReceipt(r, h'.termLogs)
    ensures ReceiptsGood(h')
  {
    hide Anchored, CutFrom;
    forall r | r in h'.receipts
      ensures GoodReceipt(r, h'.termLogs)
    {
      if r in h.receipts {
        assert GoodReceipt(r, h.termLogs);
        AnchoredStays(r.log, h.termLogs, h'.termLogs);
      }
    }
  }

  lemma AnswersStay(c: Cluster, h: History, c': Cluster, h': History)
    requires AnswersReceipted(c, h) && h.receipts <= h'.receipts
    requires forall a | a in c'.answers && a !in c.answers && a.body.AppendResponse? && a.body.success ::
               exists r | r in h'.receipts :: r.call == a.call
    ensures AnswersReceipted(c', h')
  {
  }

  lemma BackedStays(h: History, h': History, p: NodeId, x: Node, y: Node, k: nat)
    requires Backed(h, p, x, k) && h.receipts <= h'.receipts
    requires y.id == x.id && y.term == x.term && x.log <= y.log
    ensures Backed(h', p, y, k)
  {
  }

  /** A leader stays one with the same table and a log that may have grown. */
  predicate KeepsLeading(x: Node, y: Node) {
    y.role == Role.Leader ==>
      && x.role == Role.Leader && Keeps(x, y) && y.term == x.term && x.log <= y.log
      && y.matchIndex == x.matchIndex
  }

  lemma ProgressStays(c: Cluster, h: History, c': Cluster, h': History, n: NodeId)
    requires ProgressBacked(c, h) && h.receipts <= h'.receipts
    requires n in c.nodes && n in c'.nodes && c'.nodes == c.nodes[n := c'.nodes[n]]
    requires KeepsLeading(c.nodes[n], c'.nodes[n])
    ensures ProgressBacked(c', h')
  {
  }

  /** Steps that neither accept an append, nor crown a leader, nor change a leader's table. */
  lemma PlainStep(c: Cluster, h: History, c': Cluster, h': History, n: NodeId)
    requires AcksInv(c, h) && AllHonest(c, h) && n in c.nodes && n in c'.nodes && c'.nodes == c.nodes[n := c'.nodes[n]]
    requires KeepsLog(c.nodes[n], c'.nodes[n]) && KeepsLeading(c.nodes[n], c'.nodes[n])
    requires c'.answers == c.answers && h'.receipts == h.receipts && Grows(h.termLogs, h'.termLogs)
    requires forall q | q in c'.calls && q !in c.calls && q.body.AppendEntries? ::
               q.body.sender in c'.nodes && OwnCall(q.body, c'.nodes[q.body.sender])
    ensures AcksInv(c', h')
  {
    hide AllHonest, OwnCall, GoodReceipt, Backed, KeepsLog, KeepsLeading, Grows;
    OwnCallsStay(c, h, c', n);
    ReceiptsStay(h, h');
    AnswersStay(c, h, c', h');
    ProgressStays(c, h, c', h', n);
  }

  lemma OpeningKeepsAcks(c: Cluster, s: Step, c': Cluster, h: History)
    requires AcksInv(c, h) && AllHonest(c, h) && Next(c, s, c') && s.Open?
    ensures AcksInv(c', Record(c, s, h))
  {
    hide Next, Enabled, Record, AcksInv, AllHonest;
    NextIsEnabled(c, s, c');
    RecordEffect(c, s, h);
    OpenEffect(c, s, c');
    PlainStep(c, h, c', Record(c, s, h), s.n);
  }

  lemma SendingKeepsAcks(c: Cluster, s: Step, c': Cluster, h: History)
    requires AcksInv(c, h) && AllHonest(c, h) && Next(c, s, c') && (s.AskVote? || s.Replicate?)
    requires forall n | n in c.nodes :: c.nodes[n].id == n
    ensures AcksInv(c', Record(c, s, h))
  {
    hide Next, Enabled, Record, AcksInv, AllHonest, OwnCall;
    NextIsEnabled(c, s, c');
    RecordEffect(c, s, h);
    if s.AskVote? {
      AskVoteEffect(c, s, c');
    } else {
      ReplicateEffect(c, s, c');
      SendsOwnCall(c.nodes[s.n], s.peer);
    }
    PlainStep(c, h, c', h, s.n);
  }

  lemma HearingVoteKeepsAcks(c: Cluster, s: Step, c': Cluster, h: History)
    requires AcksInv(c, h) && AllHonest(c, h) && Next(c, s, c') && s.HearVoteAnswer?
    ensures AcksInv(c', Record(c, s, h))
  {
    hide Next, Enabled, Record, AcksInv, AllHonest;
    NextIsEnabled(c, s, c');
    RecordEffect(c, s, h);
    HearVoteEffect(c, s, c');
    PlainStep(c, h, c', h, s.answer.call.body.sender);
  }

  lemma SubmittingKeepsAcks(c: Cluster, s: Step, c': Cluster, h: History)
    requires AcksInv(c, h) && AllHonest(c, h) && Next(c, s, c') && s.ClientSubmit?
    requires Grows(h.termLogs, Record(c, s, h).termLogs)
    ensures AcksInv(c', Record(c, s, h))
  {
    hide Next, Enabled, Record, AcksInv, AllHonest, Grows;
    NextIsEnabled(c, s, c');
    RecordEffect(c, s, h);
    SubmitEffect(c, s, c');
    PlainStep(c, h, c', Record(c, s, h), s.n);
  }

  lemma WinProgress(c: Cluster, h: History, c': Cluster, h': History, n: NodeId)
    requires ProgressBacked(c, h) && h.receipts <= h'.receipts
    requires n in c.nodes && c'.nodes == c.nodes[n := Lead(c.nodes[n])]
    ensures ProgressBacked(c', h')
  {
  }

  lemma CountingKeepsAcks(c: Cluster, s: Step, c': Cluster, h: History)
    requires AcksInv(c, h) && AllHonest(c, h) && Next(c, s, c') && s.Count?
    requires Grows(h.termLogs, Record(c, s, h).termLogs)
    ensures AcksInv(c', Record(c, s, h))
  {
    hide Next, Enabled, Record, AllHonest, Grows, Wins, OwnCalls, ReceiptsGood, AnswersReceipted, ProgressBacked;
    NextIsEnabled(c, s, c');
    RecordEffect(c, s, h);
    CountEffect(c, s, c');
    if Wins(c, s) {
      assert c.nodes[s.n].role == Candidate by { WinnerIsCandidate(c, s); }
      OwnCallsStay(c, h, c', s.n);
      ReceiptsStay(h, Record(c, s, h));
      AnswersStay(c, h, c', Record(c, s, h));
      WinProgress(c, h, c', Record(c, s, h), s.n);
    } else {
      PlainStep(c, h, c', Record(c, s, h), s.n);
    }
  }

  lemma WinnerIsCandidate(c: Cluster, s: Step)
    requires c.Shaped() && Enabled(c, s) && Wins(c, s)
    ensures s.Count? && s.n in c.nodes && c.nodes[s.n].role == Candidate
  {
  }

  lemma HandlingKeepsLeading(x: Node, m: Message)
    ensures var y := HandleMessage(x, m).0; KeepsLog(x, y) && KeepsLeading(x, y)
  {
    hide Spliced, Accepts, FollowCommit;
  }

  lemma DeliveryKeepsAcks(c: Cluster, s: Step, c': Cluster, h: History)
    requires AcksInv(c, h) && LogsInv(c, h) && AllHonest(c, h) && Next(c, s, c') && s.Deliver?
    ensures AcksInv(c', Record(c, s, h))
  {
    hide Next, Enabled, Record, AllHonest, HandleMessage, OwnCalls, NodeAnchored, TermLogsAnchored, ReceiptsGood,
         Sourced, AnswersReceipted, ProgressBacked, KeepsLog, KeepsLeading, CutFrom, Anchored;
    NextIsEnabled(c, s, c');
    RecordEffect(c, s, h);
    RecordedReceipts(c, s, h);
    DeliverEffect(c, s, c');
    var q, h' := s.call, Record(c, s, h);
    NodeIsAnchored(c, h, q.to);
    HandlingKeepsLeading(c.nodes[q.to], q.body);
    AcceptedIsReceipted(c.nodes[q.to], q.body, h.termLogs);
    OwnCallsStay(c, h, c', q.to);
    ReceiptsStay(h, h');
    AnswersStay(c, h, c', h');
    ProgressStays(c, h, c', h', q.to);
  }

  // ---------------------------------------------------------------- hearing back

  /** A success heard by a leader in its own term moves its table only as far as a receipt reaches. */
  lemma HeardIsBacked(h: History, x: Node, q: Call, p: NodeId)
    requires x.Tracks() && q.to in x.peers && q.body.AppendEntries? && q.body.sender == x.id
    requires q.body.term == x.term && x.role == Role.Leader
    requires OwnCall(q.body, x) && NodeAnchored(x, h.termLogs) && ReceiptsGood(h)
    requires exists r | r in h.receipts :: r.call == q
    requires p in x.peers && Backed(h, p, x, x.matchIndex[p])
    ensures Backed(h, p, x, if p == q.to then Max(x.matchIndex[p], q.body.prevLogIndex + |q.body.entries|)
                            else x.matchIndex[p])
  {
    hide Anchored;
    var k := q.body.prevLogIndex + |q.body.entries|;
    if p == q.to && k > x.matchIndex[p] {
      var r :| r in h.receipts && r.call == q;
      assert GoodReceipt(r, h.termLogs);
      ReceiptBacksSender(q.body, x.log, r.log, h.termLogs);
      assert Backs(r, p, x.id, x.term, x.log[..k + 1]);
    }
  }

  lemma HearingTable(x: Node, peer: NodeId, m: Message, answer: Message)
    requires x.Tracks() && peer in x.peers && m.AppendEntries?
    ensures var y := HearAppend(x, peer, m, answer);
            if answer.AppendResponse? && answer.success then
              && y.matchIndex == x.matchIndex[peer := Max(x.matchIndex[peer], m.prevLogIndex + |m.entries|)]
              && y.log == x.log && y.term == x.term && y.role == x.role && Keeps(x, y)
            else KeepsLog(x, y) && KeepsLeading(x, y)
  {
    hide UpdateCommitIndex;
  }

  lemma HearingProgress(c: Cluster, h: History, c': Cluster, a: Answer)
    requires ProgressBacked(c, h) && ReceiptsGood(h) && OwnCalls(c) && AnswersReceipted(c, h)
    requires a in c.answers && a.call in c.calls && a.body.AppendResponse? && a.body.success
    requires var q, n := a.call, a.call.body.sender;
             && q.body.AppendEntries? && n in c.nodes && c.nodes[n].id == n
             && c.nodes[n].Tracks() && q.to in c.nodes[n].peers && NodeAnchored(c.nodes[n], h.termLogs)
             && (c.nodes[n].role == Role.Leader ==> q.body.term == c.nodes[n].term)
             && n in c'.nodes && c'.nodes == c.nodes[n := c'.nodes[n]]
             && var x, y := c.nodes[n], c'.nodes[n];
                && y.matchIndex == x.matchIndex[q.to := Max(x.matchIndex[q.to], q.body.prevLogIndex + |q.body.entries|)]
                && y.log == x.log && y.term == x.term && y.role == x.role && Keeps(x, y)
    ensures ProgressBacked(c', h)
  {
    hide Backed, NodeAnchored, GoodReceipt, OwnCall;
    var n := a.call.body.sender;
    forall m, p | m in c'.nodes && c'.nodes[m].role == Role.Leader
                  && p in c'.nodes[m].peers && p in c'.nodes[m].matchIndex
      ensures Backed(h, p, c'.nodes[m], c'.nodes[m].matchIndex[p])
    {
      assert p in c.nodes[m].matchIndex && Backed(h, p, c.nodes[m], c.nodes[m].matchIndex[p]);
      if m == n {
        HeardIsBacked(h, c.nodes[n], a.call, p);
        BackedStays(h, h, p, c.nodes[n], c'.nodes[n], c'.nodes[n].matchIndex[p]);
      }
    }
  }

  lemma HearingKeepsAcks(c: Cluster, s: Step, c': Cluster, h: History)
    requires AcksInv(c, h) && LogsInv(c, h) && AllHonest(c, h) && Next(c, s, c') && s.HearAppendAnswer?
    requires FreshAck(c, s) && forall n | n in c.nodes :: c.nodes[n].id == n
    ensures AcksInv(c', Record(c, s, h))
  {
    hide Next, Enabled, Record, AllHonest, HearAppend, OwnCalls, NodeAnchored, TermLogsAnchored, LogsInv,
         ReceiptsGood, AnswersReceipted, ProgressBacked, SameMembers;
    NextIsEnabled(c, s, c');
    RecordEffect(c, s, h);
    HearAppendEffect(c, s, c');
    var a := s.answer;
    var n := a.call.body.sender;
    HearingTable(c.nodes[n], a.call.to, a.call.body, a.body);
    if a.body.AppendResponse? && a.body.success {
      NodeIsAnchored(c, h, n);
      AnswerIsHonest(c, h, a);
      OwnCallsStay(c, h, c', n);
      AnswersStay(c, h, c', h);
      HearingProgress(c, h, c', a);
    } else {
      PlainStep(c, h, c', h, n);
    }
  }

  lemma IdsKept(c: Cluster, config: Config)
    requires Configured(c, config)
    ensures forall n | n in c.nodes :: c.nodes[n].id == n
  {
  }

  lemma StepKeepsAcks(c: Cluster, s: Step, c': Cluster, h: History, config: Config)
    requires AcksInv(c, h) && LogsInv(c, h) && VotesInv(c, h, config) && Configured(c, config) && GoodConfig(config)
    requires Next(c, s, c') && CurrentWin(c, s) && FreshAck(c, s)
    ensures AcksInv(c', Record(c, s, h))
  {
    hide AcksInv, LogsInv, Configured, Next, Enabled, Record, CurrentWin, GoodConfig, Grows, FreshAck,
         BallotsKept, AllHonest, AllElections, AllMandated, AllRoles;
    NextIsEnabled(c, s, c');
    IdsKept(c, config);
    StepGrowsTermLogs(c, s, c', h, config);
    match s
    case Open(_) => OpeningKeepsAcks(c, s, c', h);
    case AskVote(_, _, _) => SendingKeepsAcks(c, s, c', h);
    case Deliver(_) => DeliveryKeepsAcks(c, s, c', h);
    case HearVoteAnswer(_) => HearingVoteKeepsAcks(c, s, c', h);
    case Count(_, _) => CountingKeepsAcks(c, s, c', h);
    case ClientSubmit(_, _) => SubmittingKeepsAcks(c, s, c', h);
    case Replicate(_, _) => SendingKeepsAcks(c, s, c', h);
    case HearAppendAnswer(_) => HearingKeepsAcks(c, s, c', h);
  }

  lemma {:induction false} RunKeepsAcks(run: Run, k: nat)
    requires run.Valid() && AllWinsCurrent(run) && AllAcksFresh(run) && k < |run.states|
    ensures AcksInv(run.states[k], HistoryAt(run, k))
  {
    hide VotesInv, LogsInv, Configured, GoodConfig, Record, Next, CurrentWin, FreshAck;
    if k > 0 {
      var c, s := run.states[k - 1], run.steps[k - 1];
      assert Next(c, s, run.states[k]) && CurrentWin(c, s) && FreshAck(c, s);
      RunKeepsAcks(run, k - 1);
      RunKeepsVotes(run, k - 1);
      RunKeepsLogs(run, k - 1);
      StepKeepsAcks(c, s, run.states[k], HistoryAt(run, k - 1), run.config);
    }
  }

  // ---------------------------------------------------------------- counting the backers

  lemma {:induction false} AtLeastConcat(a: seq<int>, b: seq<int>, v: int)
    ensures AtLeast(a + b, v) == AtLeast(a, v) + AtLeast(b, v)
  {
    if a == [] {
      assert a + b == b;
    } else {
      assert (a + b)[1..] == a[1..] + b;
      AtLeastConcat(a[1..], b, v);
    }
  }

  function PeersReaching(peers: seq<NodeId>, matchIndex: map<NodeId, nat>, v: int): set<NodeId> {
    set p | p in peers && p in matchIndex && matchIndex[p] >= v
  }

  lemma {:induction false} CountPeersReaching(peers: seq<NodeId>, matchIndex: map<NodeId, nat>, v: int)
    requires NoDuplicates(peers) && forall p | p in peers :: p in matchIndex
    ensures |PeersReaching(peers, matchIndex, v)| == AtLeast(PeerIndices(peers, matchIndex), v)
  {
    if peers != [] {
      var rest := peers[1..];
      assert forall i, j | 0 <= i < j < |rest| :: rest[i] == peers[i + 1] && rest[j] == peers[j + 1];
      CountPeersReaching(rest, matchIndex, v);
      assert PeerIndices(peers, matchIndex)[1..] == PeerIndices(rest, matchIndex);
      var all, fewer := PeersReaching(peers, matchIndex, v), PeersReaching(rest, matchIndex, v);
      assert peers[0] !in rest;
      assert all == if matchIndex[peers[0]] >= v then fewer + {peers[0]} else fewer;
    }
  }

  /** For an odd cluster, what the median rule picks is reached by a quorum, the leader included. */
  lemma MedianHasQuorum(x: Node, config: Config) returns (q: set<NodeId>)
    requires GoodConfig(config) && x.id in config && x.peers == config[x.id] && x.Tracks()
    requires |config| % 2 == 1 && Median(MatchIndices(x)) < |x.log|
    ensures q == PeersReaching(x.peers, x.matchIndex, Median(MatchIndices(x))) + {x.id}
    ensures q <= config.Keys && |q| >= |config| / 2 + 1
  {
    hide Median, GoodConfig;
    var v := Median(MatchIndices(x));
    var reaching := PeersReaching(x.peers, x.matchIndex, v);
    q := reaching + {x.id};
    PeersAreTheOthers(config, x.id);
    assert NoDuplicates(x.peers) by { DistinctPeers(config, x.id); }
    forall p | p in reaching
      ensures p in config
    {
      PeerIsMember(config, x.id, p);
    }
    CountPeersReaching(x.peers, x.matchIndex, v);
    AtLeastConcat(PeerIndices(x.peers, x.matchIndex), [|x.log| - 1], v);
    MedianIsReached(MatchIndices(x));
    assert x.id !in reaching;
  }

  lemma DistinctPeers(config: Config, n: NodeId)
    requires GoodConfig(config) && n in config
    ensures NoDuplicates(config[n])
  {
  }

  // ---------------------------------------------------------------- whole runs

  /** In step `j` of the run, `peer` accepted an append that `leader` had sent in `term`, and then
      its log began with `prefix`. */
  ghost predicate HeldWhenAcknowledging(run: Run, j: nat, peer: NodeId, leader: NodeId, term: nat, prefix: Log)
    requires run.Valid() && j < |run.steps|
  {
    && run.steps[j].Deliver? && run.steps[j].call.to == peer
    && run.steps[j].call.body.AppendEntries?
    && run.steps[j].call.body.sender == leader && run.steps[j].call.body.term == term
    && peer in run.states[j].nodes && peer in run.states[j + 1].nodes
    && HandleMessage(run.states[j].nodes[peer], run.steps[j].call.body).1.AppendResponse?
    && HandleMessage(run.states[j].nodes[peer], run.steps[j].call.body).1.success
    && prefix <= run.states[j + 1].nodes[peer].log
  }

  /** Receipts are what they say. */
  lemma {:induction false} ReceiptsHappened(run: Run, k: nat, r: Receipt, leader: NodeId, term: nat, prefix: Log)
    returns (j: nat)
    requires run.Valid() && k < |run.states| && r in HistoryAt(run, k).receipts
    requires Backs(r, r.call.to, leader, term, prefix)
    ensures j < k && HeldWhenAcknowledging(run, j, r.call.to, leader, term, prefix)
  {
    hide Next, Enabled, Record, HandleMessage, GoodConfig, Init;
    var c, s := run.states[k - 1], run.steps[k - 1];
    assert Next(c, s, run.states[k]);
    NextIsEnabled(c, s, run.states[k]);
    RecordedReceipts(c, s, HistoryAt(run, k - 1));
    if r in HistoryAt(run, k - 1).receipts {
      j := ReceiptsHappened(run, k - 1, r, leader, term, prefix);
    } else {
      DeliverEffect(c, s, run.states[k]);
      j := k - 1;
    }
  }

  ghost predicate Acknowledged(run: Run, k: nat, peer: NodeId, leader: NodeId, term: nat, prefix: Log)
    requires run.Valid()
  {
    exists j | 0 <= j < k && j < |run.steps| :: HeldWhenAcknowledging(run, j, peer, leader, term, prefix)
  }

  /** Up to where a leader's table says a peer has replicated, the peer has acknowledged. */
  lemma TableIsAcknowledged(run: Run, k: nat, n: NodeId, p: NodeId, m: nat)
    requires run.Valid() && AllWinsCurrent(run) && AllAcksFresh(run) && k < |run.states|
    requires n in run.states[k].nodes
    requires var y := run.states[k].nodes[n];
             y.id == n && y.role == Role.Leader && p in y.peers && p in y.matchIndex && 1 <= m <= y.matchIndex[p]
    ensures var y := run.states[k].nodes[n];
            m < |y.log| && Acknowledged(run, k, p, n, y.term, y.log[..m + 1])
  {
    hide Next, GoodConfig, HeldWhenAcknowledging, HistoryAt, Init, OwnCalls, ReceiptsGood, AnswersReceipted;
    RunKeepsAcks(run, k);
    var y, h := run.states[k].nodes[n], HistoryAt(run, k);
    assert Backed(h, p, y, y.matchIndex[p]);
    var r :| r in h.receipts && Backs(r, p, n, y.term, y.log[..y.matchIndex[p] + 1]);
    assert y.log[..m + 1] <= y.log[..y.matchIndex[p] + 1];
    var j := ReceiptsHappened(run, k, r, n, y.term, y.log[..m + 1]);
  }

  /** A leader's commit index only moves by the median rule, or in a cluster of one, and only to an entry
      of the leader's own term. */
  lemma LeaderCommitsByMedian(c: Cluster, s: Step, c': Cluster, n: NodeId)
    requires Next(c, s, c') && n in c.nodes && n in c'.nodes && c'.nodes[n].role == Role.Leader
    requires c'.nodes[n].commitIndex != c.nodes[n].commitIndex
    ensures var x, y := c.nodes[n], c'.nodes[n];
            && y.commitIndex < |y.log| && y.commitIndex >= 0 && y.log[y.commitIndex].term == y.term
            && y.term == x.term && y.id == x.id && y.peers == x.peers
            && (x.peers == [] || (y.Tracks() && y.log == x.log && y.commitIndex == Median(MatchIndices(y))))
  {
    hide Next, SameMembers, HandleMessage, HearAppend, Submit, Wins;
    match s
    case Open(_) => OpenEffect(c, s, c');
    case AskVote(_, _, _) => AskVoteEffect(c, s, c');
    case Deliver(q) => DeliverEffect(c, s, c'); HandlingCommits(c.nodes[q.to], q.body);
    case HearVoteAnswer(_) => HearVoteEffect(c, s, c');
    case Count(_, _) => CountEffect(c, s, c');
    case ClientSubmit(_, command) => SubmitEffect(c, s, c'); SubmittingCommits(c.nodes[n], command);
    case Replicate(_, _) => ReplicateEffect(c, s, c');
    case HearAppendAnswer(a) =>
      HearAppendEffect(c, s, c');
      HearingCommits(c.nodes[a.call.body.sender], a.call.to, a.call.body, a.body);
  }

  lemma HandlingCommits(x: Node, m: Message)
    ensures var y := HandleMessage(x, m).0;
            y.role == Role.Leader ==> y.commitIndex == x.commitIndex
  {
  }

  lemma SubmittingCommits(x: Node, command: Command)
    ensures var y := Submit(x, command);
            && y.term == x.term && y.id == x.id && y.peers == x.peers
            && (y.commitIndex != x.commitIndex ==>
                  x.peers == [] && 0 <= y.commitIndex < |y.log| && y.log[y.commitIndex].term == y.term)
  {
  }

  lemma HearingCommits(x: Node, peer: NodeId, m: Message, answer: Message)
    requires x.Tracks() && peer in x.peers && m.AppendEntries?
    ensures var y := HearAppend(x, peer, m, answer);
            y.commitIndex != x.commitIndex ==>
              && y.term == x.term && Keeps(x, y) && y.log == x.log
              && 0 <= y.commitIndex == Median(MatchIndices(y)) < |y.log| && y.log[y.commitIndex].term == y.term
  {
    hide Median, ApplyCommitted;
  }

  /** Quorum-backed commit: in a cluster of odd size, whenever the commit index of a leader moves to
      some `m >= 1`, a quorum of nodes, the leader included, stands behind its log up to `m`: each
      other one held that log when it accepted an append sent by this leader in this term. */
  lemma CommitIsQuorumBacked(run: Run, k: nat, n: NodeId) returns (q: set<NodeId>)
    requires run.Valid() && AllWinsCurrent(run) && AllAcksFresh(run) && k < |run.steps|
    requires |run.config| % 2 == 1
    requires n in run.states[k].nodes && n in run.states[k + 1].nodes
    requires run.states[k + 1].nodes[n].role == Role.Leader
    requires run.states[k + 1].nodes[n].commitIndex != run.states[k].nodes[n].commitIndex
    requires run.states[k + 1].nodes[n].commitIndex >= 1
    ensures n in q && q <= run.config.Keys && |q| >= |run.config| / 2 + 1
    ensures var y := run.states[k + 1].nodes[n];
            y.commitIndex < |y.log| && y.log[y.commitIndex].term == y.term
    ensures var y := run.states[k + 1].nodes[n];
            forall p | p in q && p != n :: Acknowledged(run, k + 1, p, n, y.term, y.log[..y.commitIndex + 1])
  {
    hide Next, GoodConfig, Acknowledged, Median, Init, MatchIndices;
    var y := run.states[k + 1].nodes[n];
    assert Next(run.states[k], run.steps[k], run.states[k + 1]);
    LeaderCommitsByMedian(run.states[k], run.steps[k], run.states[k + 1], n);
    RunConfigured(run, k + 1);
    if y.peers == [] {
      PeersAreTheOthers(run.config, n);
      q := {n};
    } else {
      q := MedianHasQuorum(y, run.config);
      forall p | p in q && p != n
        ensures Acknowledged(run, k + 1, p, n, y.term, y.log[..y.commitIndex + 1])
      {
        TableIsAcknowledged(run, k + 1, n, p, y.commitIndex);
      }
    }
  }

  lemma MedianOfEqual(s: seq<int>, v: int)
    requires s != [] && forall i | 0 <= i < |s| :: s[i] == v
    ensures Median(s) == v
  {
    var m := Median(s);
    assert m in multiset(Sorted(s)) && m in s;
  }

  /** Why position 0 is excepted: a leader whose one entry no peer has been sent commits it on hearing
      any success for an empty request, because its table starts at 0. */
  lemma PositionZeroNeedsNoBacking(x: Node, peer: NodeId, m: Message, answer: Message)
    requires x.Tracks() && peer in x.peers && x.role == Role.Leader && x.commitIndex == x.lastApplied == -1
    requires |x.log| == 1 && x.log[0].term == x.term && forall p | p in x.peers :: x.matchIndex[p] == 0
    requires m.AppendEntries? && m.prevLogIndex == -1 && m.entries == []
    requires answer.AppendResponse? && answer.success
    ensures HearAppend(x, peer, m, answer).commitIndex == 0
    ensures HearAppend(x, peer, m, answer).applied == x.applied + x.log
  {
    hide Median;
    var y := x.(matchIndex := x.matchIndex[peer := 0], nextIndex := x.nextIndex[peer := 1]);
    MedianOfEqual(MatchIndices(y), 0);
    assert x.log[0..1] == x.log;
  }
}
