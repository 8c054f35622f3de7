/** Election safety (section 5.2 of the Raft paper) over every run and every cluster size. */
module RaftElections {
  import opened CoreTypes
  import opened RaftLog
  import opened RaftSpec
  import opened RaftCluster

  datatype Ballot = Ballot(voter: NodeId, term: nat)

  /** One accepted append: who accepted which call, and its log afterwards. */
  datatype Receipt = Receipt(call: Call, log: Log)

  /** What a run has seen so far: every vote cast, who won each term with whose votes, the log of
      each term's leader, and every accepted append. */
  datatype History = History(
    ballots: map<Ballot, NodeId>,
    leaders: map<nat, NodeId>,
    mandates: map<nat, set<NodeId>>,
    termLogs: map<nat, Log>,
    receipts: set<Receipt>)

  function Record(c: Cluster, s: Step, h: History): History
    requires c.Shaped() && Enabled(c, s)
  {
    match s
    case Open(n) => h.(ballots := h.ballots[Ballot(n, c.nodes[n].term + 1) := n])
    case Deliver(call) =>
      var (x, m) := HandleMessage(c.nodes[call.to], call.body);
      if m.VoteResponse? && m.voteGranted then
        h.(ballots := h.ballots[Ballot(call.to, x.term) := call.body.sender])
      else if m.AppendResponse? && m.success then
        h.(receipts := h.receipts + {Receipt(call, x.log)})
      else h
    case Count(n, e) =>
      var x := c.nodes[n];
      if Wins(c, s) then
        h.(leaders := h.leaders[x.term := n], mandates := h.mandates[x.term := c.elections[n][e] + {n}],
           termLogs := h.termLogs[x.term := x.log])
      else h
    case ClientSubmit(n, command) =>
      var x := Submit(c.nodes[n], command);
      h.(termLogs := h.termLogs[x.term := x.log])
    case _ => h
  }

  lemma RecordEffect(c: Cluster, s: Step, h: History)
    requires c.Shaped() && Enabled(c, s)
    ensures s.Open? ==>
              s.n in c.nodes && Record(c, s, h) == h.(ballots := h.ballots[Ballot(s.n, c.nodes[s.n].term + 1) := s.n])
    ensures s.Deliver? ==>
              && s.call.to in c.nodes
              && var (x, m) := HandleMessage(c.nodes[s.call.to], s.call.body);
                 Record(c, s, h) ==
                 if m.VoteResponse? && m.voteGranted then
                   h.(ballots := h.ballots[Ballot(s.call.to, x.term) := s.call.body.sender])
                 else h.(receipts := Record(c, s, h).receipts)
    ensures s.Count? && !Wins(c, s) ==> Record(c, s, h) == h
    ensures Wins(c, s) ==>
              && s.n in c.nodes && s.n in c.elections && s.election in c.elections[s.n]
              && Record(c, s, h) ==
                 h.(leaders := h.leaders[c.nodes[s.n].term := s.n],
                    mandates := h.mandates[c.nodes[s.n].term := c.elections[s.n][s.election] + {s.n}],
                    termLogs := h.termLogs[c.nodes[s.n].term := c.nodes[s.n].log])
    ensures s.ClientSubmit? ==>
              && s.n in c.nodes
              && var x := Submit(c.nodes[s.n], s.command);
                 Record(c, s, h) == h.(termLogs := h.termLogs[x.term := x.log])
    ensures s.AskVote? || s.Replicate? || s.HearVoteAnswer? || s.HearAppendAnswer? ==> Record(c, s, h) == h
  {
    hide HandleMessage, Submit;
  }

  lemma RecordedReceipts(c: Cluster, s: Step, h: History)
    requires c.Shaped() && Enabled(c, s)
    ensures Record(c, s, h).receipts ==
            if s.Deliver? then
              var (x, m) := HandleMessage(c.nodes[s.call.to], s.call.body);
              if m.AppendResponse? && m.success then h.receipts + {Receipt(s.call, x.log)} else h.receipts
            else h.receipts
  {
    hide HandleMessage, Submit;
  }

  function NoHistory(): History {
    History(map[], map[], map[], map[], {})
  }

  ghost function HistoryAt(run: Run, k: nat): History
    requires run.Valid() && k < |run.states|
  {
    if k == 0 then NoHistory()
    else
      assert Next(run.states[k - 1], run.steps[k - 1], run.states[k]);
      Record(run.states[k - 1], run.steps[k - 1], HistoryAt(run, k - 1))
  }

  // ---------------------------------------------------------------- invariants

  predicate Voted(h: History, v: NodeId, term: nat, candidate: NodeId) {
    Ballot(v, term) in h.ballots && h.ballots[Ballot(v, term)] == candidate
  }

  /** Recorded votes are of terms already reached, and the current one is what the node remembers. */
  predicate BallotsKept(c: Cluster, h: History) {
    && (forall b | b in h.ballots :: b.voter in c.nodes && b.term <= c.nodes[b.voter].term)
    && (forall v | v in c.nodes ::
          c.nodes[v].votedFor ==
          if Ballot(v, c.nodes[v].term) in h.ballots then Some(h.ballots[Ballot(v, c.nodes[v].term)]) else None)
  }

  predicate HonestCall(c: Cluster, q: Call) {
    && (q.body.RequestVote? || q.body.AppendEntries?)
    && q.body.sender in c.nodes && q.to in c.nodes[q.body.sender].peers
    && q.body.term <= c.nodes[q.body.sender].term
    && (q.body.RequestVote? ==> q.election <= q.body.term)
  }

  predicate HonestAnswer(c: Cluster, h: History, a: Answer) {
    && a.call in c.calls
    && (a.body.VoteResponse? && a.body.voteGranted ==>
          a.call.body.RequestVote? && Voted(h, a.call.to, a.call.body.term, a.call.body.sender))
  }

  /** While a node is still in the term an election was opened in, the yes-answers counted for it
      are votes cast for the node in that term. */
  predicate ElectionKept(c: Cluster, h: History, n: NodeId, e: nat)
    requires n in c.nodes && n in c.elections && e in c.elections[n]
  {
    && e <= c.nodes[n].term
    && (forall v | v in c.elections[n][e] :: v in c.nodes[n].peers)
    && (e == c.nodes[n].term ==>
          Voted(h, n, e, n) && forall v | v in c.elections[n][e] :: Voted(h, v, e, n))
  }

  predicate Mandated(h: History, config: Config, term: nat) {
    && term in h.leaders && term in h.mandates
    && h.leaders[term] in h.mandates[term]
    && h.mandates[term] <= config.Keys
    && |h.mandates[term]| >= |config| / 2 + 1
    && forall v | v in h.mandates[term] :: Voted(h, v, term, h.leaders[term])
  }

  /** A leader is the recorded leader of its term; a candidate has not led its term yet. */
  predicate RoleKept(c: Cluster, h: History, n: NodeId)
    requires n in c.nodes
  {
    var x := c.nodes[n];
    && (x.role == Role.Leader ==> x.term in h.leaders && h.leaders[x.term] == n)
    && (x.role == Candidate ==> !(x.term in h.leaders && h.leaders[x.term] == n))
  }

  predicate AllHonest(c: Cluster, h: History) {
    && (forall q | q in c.calls :: HonestCall(c, q))
    && (forall a | a in c.answers :: HonestAnswer(c, h, a))
  }

  predicate AllElections(c: Cluster, h: History) {
    forall n, e | n in c.nodes && n in c.elections && e in c.elections[n] :: ElectionKept(c, h, n, e)
  }

  predicate AllMandated(h: History, config: Config) {
    forall t | t in h.leaders :: Mandated(h, config, t)
  }

  predicate AllRoles(c: Cluster, h: History) {
    forall n | n in c.nodes :: RoleKept(c, h, n)
  }

  predicate VotesInv(c: Cluster, h: History, config: Config) {
    && BallotsKept(c, h) && AllHonest(c, h) && AllElections(c, h) && AllMandated(h, config) && AllRoles(c, h)
  }

  // ---------------------------------------------------------------- one node moves

  /** A node goes from `x` to `y` without voting or standing: its term may rise, which makes it a
      follower with its vote open; otherwise it keeps its vote and can only step down. */
  predicate Quiet(x: Node, y: Node) {
    && Keeps(x, y) && x.term <= y.term
    && (y.role == x.role || y.role == Follower)
    && (x.term < y.term ==> y.role == Follower && y.votedFor == None)
    && (x.term == y.term ==> y.votedFor == x.votedFor)
  }

  lemma QuietBallots(c: Cluster, h: History, c': Cluster, n: NodeId, y: Node)
    requires BallotsKept(c, h) && n in c.nodes && Quiet(c.nodes[n], y) && c'.nodes == c.nodes[n := y]
    ensures BallotsKept(c', h)
  {
  }

  lemma StepDownRoles(c: Cluster, h: History, c': Cluster, h': History, n: NodeId, y: Node)
    requires AllRoles(c, h) && n in c.nodes && c'.nodes == c.nodes[n := y]
    requires y.role == Follower || (y.role == c.nodes[n].role && y.term == c.nodes[n].term)
    requires h'.leaders == h.leaders
    ensures AllRoles(c', h')
  {
  }

  /** Nodes may move on in term and votes may be added. */
  predicate Later(c: Cluster, h: History, c': Cluster, h': History) {
    && SameMembers(c, c')
    && (forall n | n in c.nodes :: c.nodes[n].term <= c'.nodes[n].term)
    && c.calls <= c'.calls
    && (forall b | b in h.ballots :: b in h'.ballots && h'.ballots[b] == h.ballots[b])
  }

  lemma MovesIsLater(c: Cluster, h: History, c': Cluster, h': History, n: NodeId, y: Node)
    requires Moves(c, c', n, y) && c.nodes[n].term <= y.term
    requires forall b | b in h.ballots :: b in h'.ballots && h'.ballots[b] == h.ballots[b]
    ensures Later(c, h, c', h')
  {
  }

  lemma LaterMessages(c: Cluster, h: History, c': Cluster, h': History)
    requires AllHonest(c, h) && Later(c, h, c', h')
    requires forall q | q in c'.calls && q !in c.calls :: HonestCall(c', q)
    requires forall a | a in c'.answers && a !in c.answers :: HonestAnswer(c', h', a)
    ensures AllHonest(c', h')
  {
  }

  /** All elections but `(n, e)`, if that is given, are as before. */
  lemma LaterElections(c: Cluster, h: History, c': Cluster, h': History, n: NodeId, e: nat)
    requires AllElections(c, h) && Later(c, h, c', h')
    requires forall m, d | m in c'.elections && d in c'.elections[m] && (m != n || d != e) ::
               m in c.elections && d in c.elections[m] && c'.elections[m][d] == c.elections[m][d]
    requires n in c'.nodes && n in c'.elections && e in c'.elections[n] ==> ElectionKept(c', h', n, e)
    ensures AllElections(c', h')
  {
  }

  lemma SameElections(c: Cluster, h: History, c': Cluster, h': History)
    requires AllElections(c, h) && Later(c, h, c', h') && c'.elections == c.elections
    ensures AllElections(c', h')
  {
  }

  lemma LaterMandates(h: History, h': History, config: Config)
    requires AllMandated(h, config)
    requires forall b | b in h.ballots :: b in h'.ballots && h'.ballots[b] == h.ballots[b]
    requires h'.leaders == h.leaders && h'.mandates == h.mandates
    ensures AllMandated(h', config)
  {
  }

  /** A node casts a vote in the term it then is in, for the candidate it already had or for any. */
  lemma VoteBallots(c: Cluster, h: History, c': Cluster, h': History, n: NodeId, y: Node, candidate: NodeId)
    requires BallotsKept(c, h) && n in c.nodes && c'.nodes == c.nodes[n := y]
    requires y.term >= c.nodes[n].term && y.votedFor == Some(candidate)
    requires y.term == c.nodes[n].term ==> c.nodes[n].votedFor.None? || c.nodes[n].votedFor == y.votedFor
    requires h'.ballots == h.ballots[Ballot(n, y.term) := candidate]
    ensures BallotsKept(c', h')
    ensures forall b | b in h.ballots :: b in h'.ballots && h'.ballots[b] == h.ballots[b]
  {
  }

  // ---------------------------------------------------------------- steps that cast no vote

  /** What handling a message does to a node's term, vote and role. */
  lemma HandlingVotes(x: Node, m: Message)
    ensures var (y, a) := HandleMessage(x, m);
            if a.VoteResponse? && a.voteGranted then
              && m.RequestVote? && m.term == y.term && y.votedFor == Some(m.sender)
              && Quiet(x, y.(votedFor := if y.term > x.term then None else x.votedFor))
              && (y.term == x.term ==> x.votedFor.None? || x.votedFor == y.votedFor)
            else Quiet(x, y)
  {
    hide Spliced, Accepts, FollowCommit;
  }

  lemma HearingIsQuiet(x: Node, peer: NodeId, m: Message, answer: Message)
    requires x.Tracks() && peer in x.peers && m.AppendEntries?
    ensures Quiet(x, HearAppend(x, peer, m, answer))
  {
    hide UpdateCommitIndex;
  }

  /** A step in which one node moves quietly and only honest messages are added. */
  lemma QuietStep(c: Cluster, h: History, config: Config, c': Cluster, h': History, n: NodeId, y: Node)
    requires VotesInv(c, h, config) && SameMembers(c, c')
    requires n in c.nodes && Quiet(c.nodes[n], y) && c'.nodes == c.nodes[n := y]
    requires c'.elections == c.elections && c.calls <= c'.calls
    requires forall q | q in c'.calls && q !in c.calls :: HonestCall(c', q)
    requires forall a | a in c'.answers && a !in c.answers :: HonestAnswer(c', h', a)
    requires h'.ballots == h.ballots && h'.leaders == h.leaders && h'.mandates == h.mandates
    ensures VotesInv(c', h', config)
  {
    QuietBallots(c, h, c', n, y);
    StepDownRoles(c, h, c', h', n, y);
    LaterMessages(c, h, c', h');
    SameElections(c, h, c', h');
    LaterMandates(h, h', config);
  }

  lemma SendingKeepsVotes(c: Cluster, s: Step, c': Cluster, h: History, config: Config)
    requires VotesInv(c, h, config) && Configured(c, config) && Next(c, s, c') && (s.AskVote? || s.Replicate?)
    ensures VotesInv(c', Record(c, s, h), config)
  {
    hide Next, Enabled, Record, BallotsKept, AllHonest, AllMandated, AllRoles;
    NextIsEnabled(c, s, c');
    RecordEffect(c, s, h);
    var n := s.n;
    if s.AskVote? {
      AskVoteEffect(c, s, c');
      assert ElectionKept(c, h, n, s.election);
    } else {
      ReplicateEffect(c, s, c');
    }
    QuietStep(c, h, config, c', h, n, c.nodes[n]);
  }

  lemma DeliveryKeepsVotes(c: Cluster, s: Step, c': Cluster, h: History, config: Config)
    requires VotesInv(c, h, config) && Configured(c, config) && Next(c, s, c') && s.Deliver?
    ensures VotesInv(c', Record(c, s, h), config)
  {
    hide Next, Enabled, Record, Configured, HandleMessage, BallotsKept, AllElections, AllMandated, AllRoles, Later;
    NextIsEnabled(c, s, c');
    RecordEffect(c, s, h);
    DeliverEffect(c, s, c');
    var n, h' := s.call.to, Record(c, s, h);
    var (y, a) := HandleMessage(c.nodes[n], s.call.body);
    HandlingVotes(c.nodes[n], s.call.body);
    if a.VoteResponse? && a.voteGranted {
      VoteBallots(c, h, c', h', n, y, s.call.body.sender);
      StepDownRoles(c, h, c', h', n, y);
      MovesIsLater(c, h, c', h', n, y);
      LaterMessages(c, h, c', h');
      SameElections(c, h, c', h');
      LaterMandates(h, h', config);
    } else {
      QuietStep(c, h, config, c', h', n, y);
    }
  }

  lemma HearingAppendKeepsVotes(c: Cluster, s: Step, c': Cluster, h: History, config: Config)
    requires VotesInv(c, h, config) && Configured(c, config) && Next(c, s, c') && s.HearAppendAnswer?
    ensures VotesInv(c', Record(c, s, h), config)
  {
    hide Next, Enabled, Record, VotesInv, Configured, HearAppend;
    NextIsEnabled(c, s, c');
    RecordEffect(c, s, h);
    HearAppendEffect(c, s, c');
    var q := s.answer.call;
    HearingIsQuiet(c.nodes[q.body.sender], q.to, q.body, s.answer.body);
    QuietStep(c, h, config, c', h, q.body.sender, c'.nodes[q.body.sender]);
  }

  lemma SubmittingKeepsVotes(c: Cluster, s: Step, c': Cluster, h: History, config: Config)
    requires VotesInv(c, h, config) && Configured(c, config) && Next(c, s, c') && s.ClientSubmit?
    ensures VotesInv(c', Record(c, s, h), config)
  {
    hide Next, Enabled, Record, VotesInv, Configured;
    NextIsEnabled(c, s, c');
    RecordEffect(c, s, h);
    SubmitEffect(c, s, c');
    QuietStep(c, h, config, c', Record(c, s, h), s.n, c'.nodes[s.n]);
  }

  lemma NextTermIsUnused(c: Cluster, h: History, n: NodeId)
    requires BallotsKept(c, h) && n in c.nodes
    ensures Ballot(n, c.nodes[n].term + 1) !in h.ballots
  {
  }

  /** A new candidate has not led its new term: a leader's own vote is in its mandate. */
  lemma OpeningRoles(c: Cluster, h: History, config: Config, c': Cluster, h': History, n: NodeId)
    requires VotesInv(c, h, config) && n in c.nodes && c'.nodes == c.nodes[n := OpenElection(c.nodes[n])]
    requires h'.leaders == h.leaders
    ensures AllRoles(c', h')
  {
    hide AllHonest, AllElections, BallotsKept;
    var e := c.nodes[n].term + 1;
    NextTermIsUnused(c, h, n);
    forall m | m in c'.nodes
      ensures RoleKept(c', h', m)
    {
      assert RoleKept(c, h, m);
      if m == n && e in h.leaders { assert Mandated(h, config, e); }
    }
  }

  lemma OpeningKeepsVotes(c: Cluster, s: Step, c': Cluster, h: History, config: Config)
    requires VotesInv(c, h, config) && Configured(c, config) && Next(c, s, c') && s.Open?
    ensures VotesInv(c', Record(c, s, h), config)
  {
    hide Next, Enabled, Record, AllElections, AllHonest, AllMandated, AllRoles, BallotsKept, Later, SameMembers;
    NextIsEnabled(c, s, c');
    RecordEffect(c, s, h);
    OpenEffect(c, s, c');
    var n, h' := s.n, Record(c, s, h);
    var e := c.nodes[n].term + 1;
    VoteBallots(c, h, c', h', n, c'.nodes[n], n);
    OpeningRoles(c, h, config, c', h', n);
    MovesIsLater(c, h, c', h', n, c'.nodes[n]);
    LaterMessages(c, h, c', h');
    assert ElectionKept(c', h', n, e);
    LaterElections(c, h, c', h', n, e);
    LaterMandates(h, h', config);
  }

  lemma AnswerIsHonest(c: Cluster, h: History, a: Answer)
    requires AllHonest(c, h) && a in c.answers
    ensures HonestAnswer(c, h, a) && HonestCall(c, a.call)
  {
  }

  lemma HearingVoteElection(c: Cluster, s: Step, c': Cluster, h: History)
    requires AllHonest(c, h) && AllElections(c, h) && Next(c, s, c') && s.HearVoteAnswer?
    ensures var q := s.answer.call;
            && q.body.sender in c'.nodes && q.body.sender in c'.elections
            && q.election in c'.elections[q.body.sender]
            && ElectionKept(c', h, q.body.sender, q.election)
  {
    hide Next, AllHonest;
    HearVoteEffect(c, s, c');
    var q := s.answer.call;
    AnswerIsHonest(c, h, s.answer);
    assert ElectionKept(c, h, q.body.sender, q.election);
  }

  lemma HearingVoteKeepsVotes(c: Cluster, s: Step, c': Cluster, h: History, config: Config)
    requires VotesInv(c, h, config) && Configured(c, config) && Next(c, s, c') && s.HearVoteAnswer?
    ensures VotesInv(c', Record(c, s, h), config)
  {
    hide Next, Enabled, Record, Configured, AllElections, AllHonest, AllMandated, AllRoles, BallotsKept, ElectionKept,
         Later, SameMembers;
    NextIsEnabled(c, s, c');
    RecordEffect(c, s, h);
    HearVoteEffect(c, s, c');
    HearingVoteElection(c, s, c', h);
    var n, e := s.answer.call.body.sender, s.answer.call.election;
    QuietBallots(c, h, c', n, c'.nodes[n]);
    StepDownRoles(c, h, c', h, n, c'.nodes[n]);
    MovesIsLater(c, h, c', h, n, c'.nodes[n]);
    LaterMessages(c, h, c', h);
    LaterElections(c, h, c', h, n, e);
  }

  lemma PeerIsMember(config: Config, n: NodeId, v: NodeId)
    requires GoodConfig(config) && n in config && v in config[n]
    ensures v in config && v != n
  {
    assert v in (set p | p in config[n]);
    assert v in config.Keys - {n};
  }

  /** The counted votes and the candidate's own make a quorum. */
  lemma WinnersAreAQuorum(c: Cluster, n: NodeId, e: nat, h: History, config: Config)
    requires Configured(c, config) && GoodConfig(config)
    requires n in c.nodes && n in c.elections && e in c.elections[n] && ElectionKept(c, h, n, e)
    requires 1 + |c.elections[n][e]| >= QuorumSize(|c.nodes[n].peers|)
    ensures var all := c.elections[n][e] + {n};
            all <= config.Keys && |all| >= |config| / 2 + 1
  {
    hide GoodConfig;
    var yes := c.elections[n][e];
    PeersAreTheOthers(config, n);
    assert |yes + {n}| == |yes| + 1;
    forall v | v in yes
      ensures v in config.Keys
    {
      PeerIsMember(config, n, v);
    }
  }

  /** A winner counted in the term its election was opened in is the first leader of that term. */
  lemma CurrentWinIsFirst(c: Cluster, s: Step, h: History, config: Config)
    requires VotesInv(c, h, config) && Configured(c, config) && GoodConfig(config)
    requires c.Shaped() && Enabled(c, s) && Wins(c, s) && CurrentWin(c, s)
    ensures s.n in c.nodes && c.nodes[s.n].term !in h.leaders
    ensures Mandated(Record(c, s, h), config, c.nodes[s.n].term)
  {
    hide Enabled, Record, AllHonest, BallotsKept, Configured, GoodConfig;
    RecordEffect(c, s, h);
    var n, e := s.n, s.election;
    var all := c.elections[n][e] + {n};
    assert ElectionKept(c, h, n, e) && RoleKept(c, h, n);
    WinnersAreAQuorum(c, n, e, h, config);
    if e in h.leaders {
      assert Mandated(h, config, e);
      var v := QuorumsMeet(config.Keys, all, h.mandates[e]);
    }
  }

  lemma SameVoteBallots(c: Cluster, h: History, c': Cluster, h': History, n: NodeId, y: Node)
    requires BallotsKept(c, h) && n in c.nodes && c'.nodes == c.nodes[n := y]
    requires y.term == c.nodes[n].term && y.votedFor == c.nodes[n].votedFor && h'.ballots == h.ballots
    ensures BallotsKept(c', h')
  {
  }

  lemma CountingRoles(c: Cluster, s: Step, c': Cluster, h: History)
    requires AllRoles(c, h) && Next(c, s, c') && s.Count?
    requires Wins(c, s) ==> c.nodes[s.n].term !in h.leaders
    ensures AllRoles(c', Record(c, s, h))
  {
    hide Next, Enabled, Record, Wins, SameMembers, CountVotes, ForAllPeers;
    NextIsEnabled(c, s, c');
    RecordEffect(c, s, h);
    CountEffect(c, s, c');
    var h' := Record(c, s, h);
    forall m | m in c'.nodes
      ensures RoleKept(c', h', m)
    {
      assert RoleKept(c, h, m);
    }
  }

  lemma CountingMandates(c: Cluster, s: Step, h: History, config: Config)
    requires AllMandated(h, config) && c.Shaped() && Enabled(c, s) && s.Count?
    requires Wins(c, s) ==> Mandated(Record(c, s, h), config, c.nodes[s.n].term)
    ensures AllMandated(Record(c, s, h), config)
  {
  }

  lemma CountingKeepsVotes(c: Cluster, s: Step, c': Cluster, h: History, config: Config)
    requires VotesInv(c, h, config) && Configured(c, config) && GoodConfig(config)
    requires Next(c, s, c') && s.Count? && CurrentWin(c, s)
    ensures VotesInv(c', Record(c, s, h), config)
  {
    hide Next, Enabled, Record, Wins, Configured, GoodConfig, AllElections, AllHonest, AllMandated, AllRoles,
         BallotsKept, Mandated, Later, CurrentWin, SameMembers, CountVotes, ForAllPeers;
    NextIsEnabled(c, s, c');
    if Wins(c, s) { CurrentWinIsFirst(c, s, h, config); }
    RecordEffect(c, s, h);
    CountEffect(c, s, c');
    CountingMandates(c, s, h, config);
    CountingRoles(c, s, c', h);
    var n, h' := s.n, Record(c, s, h);
    SameVoteBallots(c, h, c', h', n, c'.nodes[n]);
    MovesIsLater(c, h, c', h', n, c'.nodes[n]);
    LaterMessages(c, h, c', h');
    LaterElections(c, h, c', h', n, s.election);
  }

  lemma StepKeepsVotes(c: Cluster, s: Step, c': Cluster, h: History, config: Config)
    requires VotesInv(c, h, config) && Configured(c, config) && GoodConfig(config)
    requires Next(c, s, c') && CurrentWin(c, s)
    ensures VotesInv(c', Record(c, s, h), config)
  {
    hide VotesInv, Configured, Next, CurrentWin, GoodConfig, Record;
    match s
    case Open(_) => OpeningKeepsVotes(c, s, c', h, config);
    case AskVote(_, _, _) => SendingKeepsVotes(c, s, c', h, config);
    case Deliver(_) => DeliveryKeepsVotes(c, s, c', h, config);
    case HearVoteAnswer(_) => HearingVoteKeepsVotes(c, s, c', h, config);
    case Count(_, _) => CountingKeepsVotes(c, s, c', h, config);
    case ClientSubmit(_, _) => SubmittingKeepsVotes(c, s, c', h, config);
    case Replicate(_, _) => SendingKeepsVotes(c, s, c', h, config);
    case HearAppendAnswer(_) => HearingAppendKeepsVotes(c, s, c', h, config);
  }

  // ---------------------------------------------------------------- whole runs

  lemma InitVotes(config: Config)
    ensures VotesInv(Init(config), NoHistory(), config)
  {
  }

  lemma {:induction false} RunKeepsVotes(run: Run, k: nat)
    requires run.Valid() && AllWinsCurrent(run) && k < |run.states|
    ensures Configured(run.states[k], run.config)
    ensures VotesInv(run.states[k], HistoryAt(run, k), run.config)
  {
    hide VotesInv, Configured, GoodConfig, Record, CurrentWin, Next, Init, NoHistory;
    RunConfigured(run, k);
    if k == 0 {
      InitVotes(run.config);
    } else {
      var c, s := run.states[k - 1], run.steps[k - 1];
      assert Next(c, s, run.states[k]) && CurrentWin(c, s);
      RunKeepsVotes(run, k - 1);
      StepKeepsVotes(c, s, run.states[k], HistoryAt(run, k - 1), run.config);
    }
  }

  lemma StepRemembersLeaders(c: Cluster, s: Step, c': Cluster, h: History, config: Config)
    requires VotesInv(c, h, config) && Configured(c, config) && GoodConfig(config)
    requires Next(c, s, c') && CurrentWin(c, s)
    ensures forall t | t in h.leaders ::
              t in Record(c, s, h).leaders && Record(c, s, h).leaders[t] == h.leaders[t]
  {
    hide Next, Enabled, Record, Wins, CurrentWin, VotesInv, Configured, GoodConfig;
    NextIsEnabled(c, s, c');
    RecordEffect(c, s, h);
    if Wins(c, s) { CurrentWinIsFirst(c, s, h, config); }
  }

  lemma {:induction false} LeadersAreRemembered(run: Run, i: nat, k: nat)
    requires run.Valid() && AllWinsCurrent(run) && i <= k < |run.states|
    ensures forall t | t in HistoryAt(run, i).leaders ::
              t in HistoryAt(run, k).leaders && HistoryAt(run, k).leaders[t] == HistoryAt(run, i).leaders[t]
    decreases k
  {
    hide VotesInv, Configured, GoodConfig, Record, CurrentWin, Next;
    if i < k {
      var c, s := run.states[k - 1], run.steps[k - 1];
      assert Next(c, s, run.states[k]) && CurrentWin(c, s);
      LeadersAreRemembered(run, i, k - 1);
      RunKeepsVotes(run, k - 1);
      StepRemembersLeaders(c, s, run.states[k], HistoryAt(run, k - 1), run.config);
    }
  }

  /** Election safety: over a whole run no two different nodes lead in the same term, at the same
      moment or at different ones, if every win is counted in the term its election was opened in. */
  lemma ElectionSafety(run: Run, i: nat, j: nat, a: NodeId, b: NodeId)
    requires run.Valid() && AllWinsCurrent(run) && i < |run.states| && j < |run.states|
    requires a in run.states[i].nodes && run.states[i].nodes[a].role == Role.Leader
    requires b in run.states[j].nodes && run.states[j].nodes[b].role == Role.Leader
    requires run.states[i].nodes[a].term == run.states[j].nodes[b].term
    ensures a == b
  {
    RunKeepsVotes(run, i);
    RunKeepsVotes(run, j);
    assert RoleKept(run.states[i], HistoryAt(run, i), a) && RoleKept(run.states[j], HistoryAt(run, j), b);
    if i <= j {
      LeadersAreRemembered(run, i, j);
    } else {
      LeadersAreRemembered(run, j, i);
    }
  }
}
