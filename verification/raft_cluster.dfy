/** All nodes together with everything that was ever sent. Calls and answers are never taken out of
    the network, so loss, delay, reordering and repetition are all among the runs. */
module RaftCluster {
  import opened CoreTypes
  import opened RaftSpec

  /** A request under way. `election` is the election whose task sent a vote request: the transport
      hands each answer to the task that is waiting for it. */
  datatype Call = Call(to: NodeId, election: nat, body: Message)

  datatype Answer = Answer(call: Call, body: Message)

  /** `elections` holds, per node, the elections still waiting for answers, by the term they were
      opened in, each with the peers that said yes so far. */
  datatype Cluster = Cluster(
    nodes: map<NodeId, Node>,
    elections: map<NodeId, map<nat, set<NodeId>>>,
    calls: set<Call>,
    answers: set<Answer>)
  {
    predicate Shaped() {
      nodes.Keys == elections.Keys && forall n | n in nodes :: nodes[n].Tracks()
    }
  }

  /** The peer list of every node. */
  type Config = map<NodeId, seq<NodeId>>

  predicate NoDuplicates<T(==)>(s: seq<T>) {
    forall i, j | 0 <= i < j < |s| :: s[i] != s[j]
  }

  /** Every node lists every other node once. */
  predicate GoodConfig(config: Config) {
    forall n | n in config :: NoDuplicates(config[n]) && (set p | p in config[n]) == config.Keys - {n}
  }

  function Init(config: Config): Cluster {
    Cluster(map n | n in config :: Fresh(n, config[n]), map n | n in config :: map[], {}, {})
  }

  /** The stretches of code between two real suspensions. */
  datatype Step =
    | Open(n: NodeId)
    | AskVote(n: NodeId, election: nat, peer: NodeId)
    | Deliver(call: Call)
    | HearVoteAnswer(answer: Answer)
    | Count(n: NodeId, election: nat)
    | ClientSubmit(n: NodeId, command: Command)
    | Replicate(n: NodeId, peer: NodeId)
    | HearAppendAnswer(answer: Answer)

  predicate Enabled(c: Cluster, s: Step)
    requires c.Shaped()
  {
    match s
    case Open(n) => n in c.nodes && c.nodes[n].role != Role.Leader && !c.nodes[n].electing
    case AskVote(n, e, peer) => n in c.nodes && e in c.elections[n] && peer in c.nodes[n].peers
    case Deliver(call) => call in c.calls && call.to in c.nodes
    case HearVoteAnswer(a) =>
      && a in c.answers && a.call.body.RequestVote? && a.call.body.sender in c.nodes
      && a.call.election in c.elections[a.call.body.sender]
    case Count(n, e) => n in c.nodes && e in c.elections[n]
    case ClientSubmit(n, _) => n in c.nodes && c.nodes[n].role == Role.Leader
    case Replicate(n, peer) => n in c.nodes && peer in c.nodes[n].peers
    case HearAppendAnswer(a) =>
      && a in c.answers && a.call.body.AppendEntries? && a.call.body.sender in c.nodes
      && a.call.to in c.nodes[a.call.body.sender].peers
  }

  /** Same nodes with the same peers. */
  predicate SameMembers(c: Cluster, c': Cluster) {
    && c'.nodes.Keys == c.nodes.Keys && c'.elections.Keys == c.elections.Keys
    && forall n | n in c.nodes :: Keeps(c.nodes[n], c'.nodes[n])
  }

  function SetNode(c: Cluster, n: NodeId, x: Node): (r: Cluster)
    requires c.Shaped() && n in c.nodes && Keeps(c.nodes[n], x)
    ensures r.Shaped() && SameMembers(c, r)
  {
    c.(nodes := c.nodes[n := x])
  }

  function SetElections(c: Cluster, n: NodeId, elections: map<nat, set<NodeId>>): (r: Cluster)
    requires c.Shaped() && n in c.nodes
    ensures r.Shaped() && SameMembers(c, r)
  {
    c.(elections := c.elections[n := elections])
  }

  /** The elections of a node after a peer's answer to one of its vote requests. */
  function Noted(elections: map<nat, set<NodeId>>, a: Answer): map<nat, set<NodeId>>
    requires a.call.election in elections
  {
    if a.body.VoteResponse? && a.body.voteGranted
    then elections[a.call.election := elections[a.call.election] + {a.call.to}] else elections
  }

  function Apply(c: Cluster, s: Step): (r: Cluster)
    requires c.Shaped() && Enabled(c, s)
    ensures r.Shaped() && SameMembers(c, r)
  {
    match s
    case Open(n) =>
      SetElections(SetNode(c, n, OpenElection(c.nodes[n])), n, c.elections[n][c.nodes[n].term + 1 := {}])
    case AskVote(n, e, peer) =>
      c.(calls := c.calls + {Call(peer, e, VoteRequest(c.nodes[n]))})
    case Deliver(call) =>
      var (x, m) := HandleMessage(c.nodes[call.to], call.body);
      SetNode(c, call.to, x).(answers := c.answers + {Answer(call, m)})
    case HearVoteAnswer(a) =>
      var n := a.call.body.sender;
      SetElections(SetNode(c, n, HearVote(c.nodes[n], a.body)), n, Noted(c.elections[n], a))
    case Count(n, e) =>
      SetElections(SetNode(c, n, CountVotes(c.nodes[n], |c.elections[n][e]|)), n, c.elections[n] - {e})
    case ClientSubmit(n, command) =>
      SetNode(c, n, Submit(c.nodes[n], command))
    case Replicate(n, peer) =>
      c.(calls := c.calls + {Call(peer, 0, AppendRequest(c.nodes[n], peer))})
    case HearAppendAnswer(a) =>
      var n := a.call.body.sender;
      SetNode(c, n, HearAppend(c.nodes[n], a.call.to, a.call.body, a.body))
  }

  predicate Next(c: Cluster, s: Step, c': Cluster) {
    c.Shaped() && Enabled(c, s) && c' == Apply(c, s)
  }

  /** A run from the initial cluster: `steps[i]` leads from `states[i]` to `states[i + 1]`. */
  datatype Run = Run(config: Config, states: seq<Cluster>, steps: seq<Step>) {
    ghost predicate Valid() {
      && GoodConfig(config)
      && |states| == |steps| + 1
      && states[0] == Init(config)
      && forall i | 0 <= i < |steps| :: Next(states[i], steps[i], states[i + 1])
    }
  }

  /** Does this step make a node leader? */
  predicate Wins(c: Cluster, s: Step)
    requires c.Shaped() && Enabled(c, s)
  {
    && s.Count? && c.nodes[s.n].role == Candidate
    && 1 + |c.elections[s.n][s.election]| >= QuorumSize(|c.nodes[s.n].peers|)
  }

  /** The test the win check leaves out: the election being counted is the current one. */
  predicate CurrentWin(c: Cluster, s: Step) {
    c.Shaped() && Enabled(c, s) && Wins(c, s) ==> c.nodes[s.n].term == s.election
  }

  ghost predicate AllWinsCurrent(run: Run)
    requires run.Valid()
  {
    forall i | 0 <= i < |run.steps| :: CurrentWin(run.states[i], run.steps[i])
  }

  // ---------------------------------------------------------------- what each step changes

  /** Node `n` becomes `y`; nothing is unsent. */
  predicate Moves(c: Cluster, c': Cluster, n: NodeId, y: Node) {
    && n in c.nodes && c'.nodes == c.nodes[n := y] && SameMembers(c, c')
    && c.calls <= c'.calls && c.answers <= c'.answers
  }

  lemma NextIsEnabled(c: Cluster, s: Step, c': Cluster)
    requires Next(c, s, c')
    ensures c.Shaped() && Enabled(c, s)
  {
  }

  lemma OpenEffect(c: Cluster, s: Step, c': Cluster)
    requires Next(c, s, c') && s.Open?
    ensures s.n in c.nodes && s.n in c.elections && Moves(c, c', s.n, OpenElection(c.nodes[s.n]))
    ensures c'.elections == c.elections[s.n := c.elections[s.n][c.nodes[s.n].term + 1 := {}]]
    ensures c'.calls == c.calls && c'.answers == c.answers
  {
  }

  lemma AskVoteEffect(c: Cluster, s: Step, c': Cluster)
    requires Next(c, s, c') && s.AskVote?
    ensures s.n in c.nodes && s.n in c.elections && s.election in c.elections[s.n] && s.peer in c.nodes[s.n].peers
    ensures c' == c.(calls := c.calls + {Call(s.peer, s.election, VoteRequest(c.nodes[s.n]))})
    ensures SameMembers(c, c')
  {
  }

  lemma DeliverEffect(c: Cluster, s: Step, c': Cluster)
    requires Next(c, s, c') && s.Deliver?
    ensures s.call in c.calls && s.call.to in c.nodes
    ensures var r := HandleMessage(c.nodes[s.call.to], s.call.body);
            Moves(c, c', s.call.to, r.0) && c'.answers == c.answers + {Answer(s.call, r.1)}
    ensures c'.elections == c.elections && c'.calls == c.calls
  {
  }

  lemma HearVoteEffect(c: Cluster, s: Step, c': Cluster)
    requires Next(c, s, c') && s.HearVoteAnswer?
    ensures var a := s.answer; var n := a.call.body.sender;
            && a in c.answers && a.call.body.RequestVote? && n in c.nodes && n in c.elections
            && a.call.election in c.elections[n]
            && Moves(c, c', n, HearVote(c.nodes[n], a.body))
            && c'.elections == c.elections[n := Noted(c.elections[n], a)]
    ensures c'.calls == c.calls && c'.answers == c.answers
  {
  }

  lemma CountEffect(c: Cluster, s: Step, c': Cluster)
    requires Next(c, s, c') && s.Count?
    ensures s.n in c.nodes && s.n in c.elections && s.election in c.elections[s.n]
    ensures var y := CountVotes(c.nodes[s.n], |c.elections[s.n][s.election]|);
            && Moves(c, c', s.n, y)
            && y == (if Wins(c, s) then Lead(c.nodes[s.n]) else c.nodes[s.n]).(electing := false)
    ensures c'.elections == c.elections[s.n := c.elections[s.n] - {s.election}]
    ensures c'.calls == c.calls && c'.answers == c.answers
  {
  }

  lemma SubmitEffect(c: Cluster, s: Step, c': Cluster)
    requires Next(c, s, c') && s.ClientSubmit?
    ensures s.n in c.nodes && c.nodes[s.n].role == Role.Leader
    ensures Moves(c, c', s.n, Submit(c.nodes[s.n], s.command))
    ensures c'.elections == c.elections && c'.calls == c.calls && c'.answers == c.answers
  {
  }

  lemma ReplicateEffect(c: Cluster, s: Step, c': Cluster)
    requires Next(c, s, c') && s.Replicate?
    ensures s.n in c.nodes && s.peer in c.nodes[s.n].peers && s.peer in c.nodes[s.n].nextIndex
    ensures c' == c.(calls := c.calls + {Call(s.peer, 0, AppendRequest(c.nodes[s.n], s.peer))})
    ensures SameMembers(c, c')
  {
  }

  lemma HearAppendEffect(c: Cluster, s: Step, c': Cluster)
    requires Next(c, s, c') && s.HearAppendAnswer?
    ensures var a := s.answer; var n := a.call.body.sender;
            && a in c.answers && a.call.body.AppendEntries? && n in c.nodes
            && a.call.to in c.nodes[n].peers && c.nodes[n].Tracks()
            && Moves(c, c', n, HearAppend(c.nodes[n], a.call.to, a.call.body, a.body))
    ensures c'.elections == c.elections && c'.calls == c.calls && c'.answers == c.answers
  {
  }

  // ---------------------------------------------------------------- what steps leave alone

  /** Node identities and peer lists are those of the configuration. */
  predicate Configured(c: Cluster, config: Config) {
    && c.nodes.Keys == c.elections.Keys == config.Keys
    && forall n | n in c.nodes :: c.nodes[n].id == n && c.nodes[n].peers == config[n] && c.nodes[n].Tracks()
  }

  lemma InitConfigured(config: Config)
    ensures Configured(Init(config), config) && Init(config).Shaped()
  {
  }

  lemma NextConfigured(c: Cluster, s: Step, c': Cluster, config: Config)
    requires Configured(c, config) && Next(c, s, c')
    ensures Configured(c', config)
  {
  }

  lemma {:induction false} RunConfigured(run: Run, k: nat)
    requires run.Valid() && k < |run.states|
    ensures Configured(run.states[k], run.config) && run.states[k].Shaped()
  {
    if k == 0 {
      InitConfigured(run.config);
    } else {
      RunConfigured(run, k - 1);
      assert Next(run.states[k - 1], run.steps[k - 1], run.states[k]);
      NextConfigured(run.states[k - 1], run.steps[k - 1], run.states[k], run.config);
    }
  }

  lemma {:induction false} SetOfDistinct<T>(s: seq<T>)
    requires NoDuplicates(s)
    ensures |set x | x in s| == |s|
  {
    if s != [] {
      var t := s[1..];
      assert forall i, j | 0 <= i < j < |t| :: t[i] == s[i + 1] && t[j] == s[j + 1];
      SetOfDistinct(t);
      assert (set x | x in s) == (set x | x in t) + {s[0]};
      assert s[0] !in t by {
        assert forall i | 0 <= i < |t| :: t[i] == s[i + 1];
      }
    }
  }

  /** Peers and the node itself make up the cluster. */
  lemma PeersAreTheOthers(config: Config, n: NodeId)
    requires GoodConfig(config) && n in config
    ensures |config[n]| + 1 == |config|
    ensures n !in config[n]
    ensures QuorumSize(|config[n]|) == |config| / 2 + 1
  {
    SetOfDistinct(config[n]);
    assert n !in (set p | p in config[n]);
    assert |config.Keys - {n}| == |config.Keys| - 1;
  }

  lemma QuorumsMeet(all: set<NodeId>, a: set<NodeId>, b: set<NodeId>) returns (v: NodeId)
    requires a <= all && b <= all
    requires |a| >= |all| / 2 + 1 && |b| >= |all| / 2 + 1
    ensures v in a && v in b
  {
    if a * b == {} {
      assert |a + b| == |a| + |b|;
      SubsetIsSmaller(a + b, all);
    }
    v :| v in a * b;
  }

  lemma SubsetIsSmaller<T>(a: set<T>, b: set<T>)
    requires a <= b
    ensures |a| <= |b|
  {
    assert |b| == |a| + |b - a| by { assert b == a + (b - a); }
  }
}
