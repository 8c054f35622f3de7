/** Why election safety and log matching need their hypothesis: in every cluster of two nodes or more
    there is a run in which vote counts left over from older elections make two leaders of one term. */
module RaftStaleWin {
  import opened CoreTypes
  import opened RaftLog
  import opened RaftSpec
  import opened RaftCluster
  import opened RaftElections
  import opened RaftMessages
  import opened RaftScenarios

  predicate Is(c: Cluster, n: NodeId, term: nat, role: Role, electing: bool, log: Log) {
    && n in c.nodes && n in c.elections
    && c.nodes[n].id == n && c.nodes[n].log == log
    && c.nodes[n].term == term && c.nodes[n].role == role && c.nodes[n].electing == electing
  }

  /** The election of `n` opened in term `e` has the votes of all other nodes and is not counted yet. */
  predicate Pending(c: Cluster, config: Config, n: NodeId, e: nat) {
    && n in config && n in c.elections && n in c.nodes && c.nodes[n].peers == config[n]
    && e in c.elections[n] && |c.elections[n][e]| == |config[n]|
  }

  /** `n` opens an election and gets the votes of all others, whose elections stay as they are. */
  lemma CollectAll(run: Run, n: NodeId, term: nat) returns (run': Run)
    requires Built(run) && n in run.config && AllBelow(Last(run), run.config, term)
    requires Is(Last(run), n, term, Last(run).nodes[n].role, false, []) && Last(run).nodes[n].role != Role.Leader
    ensures Built(run') && run'.config == run.config && AllBelow(Last(run'), run.config, term + 1)
    ensures Is(Last(run'), n, term + 1, Candidate, true, []) && Pending(Last(run'), run.config, n, term + 1)
    ensures forall m | m in run.config && m != n :: Is(Last(run'), m, term + 1, Follower, false, [])
    ensures Last(run').elections == Last(run).elections[n := Last(run').elections[n]]
    ensures n in Last(run).elections && forall e | e in Last(run).elections[n] && e <= term ::
              e in Last(run').elections[n] && Last(run').elections[n][e] == Last(run).elections[n][e]
  {
    hide Run.Valid, NoDuplicates, GoodConfig, Continues, AllBelow, Is, Pending, Willing, HaveVoted, UpToDate, MoreVotes,
         Configured;
    BelowMembers(Last(run), run.config, term);
    NotLeading(Last(run), n, term);
    OthersAreWilling(run, n, term);
    var stood := Stand(run, n);
    NewElection(Last(run), Last(stood), n, term);
    WillingOnceStood(Last(run), Last(stood), n, run.config[n]);
    run' := Collect(stood, n, term + 1, run.config[n]);
    IsGood(run);
    Members(run');
    OthersArePeers(run.config, n);
    HavingCollected(Last(run), Last(stood), Last(run'), run.config, n, term);
    CandidateCollected(Last(run), Last(stood), Last(run'), run.config, n, term);
  }

  lemma BelowMembers(c: Cluster, config: Config, term: nat)
    requires AllBelow(c, config, term)
    ensures c.nodes.Keys == config.Keys
  {
  }

  lemma NotLeading(c: Cluster, n: NodeId, term: nat)
    requires n in c.nodes && Is(c, n, term, c.nodes[n].role, false, [])
    ensures n in c.elections && c.nodes[n].term == term && !c.nodes[n].electing
  {
  }

  lemma NewElection(c: Cluster, b: Cluster, n: NodeId, term: nat)
    requires n in c.nodes && n in c.elections && c.nodes[n].term == term
    requires b == c.(nodes := c.nodes[n := OpenElection(c.nodes[n])],
                     elections := c.elections[n := c.elections[n][c.nodes[n].term + 1 := {}]])
    ensures n in b.nodes && n in b.elections && term + 1 in b.elections[n]
    ensures b.nodes[n].id == c.nodes[n].id
  {
  }

  /** Where the others stand after an election in which they all voted. */
  lemma HavingCollected(c: Cluster, b: Cluster, d: Cluster, config: Config, n: NodeId, term: nat)
    requires n in config && AllBelow(c, config, term) && c.nodes[n].term == term && Configured(d, config)
    requires n !in config[n] && forall m | m in config && m != n :: m in config[n]
    requires b.nodes == c.nodes[n := OpenElection(c.nodes[n])] && HaveVoted(b, d, n, term + 1, config[n])
    ensures AllBelow(d, config, term + 1) && d.nodes[n] == OpenElection(c.nodes[n])
    ensures forall m | m in config && m != n :: Is(d, m, term + 1, Follower, false, [])
  {
  }

  /** Where the candidate stands. */
  lemma CandidateCollected(c: Cluster, b: Cluster, d: Cluster, config: Config, n: NodeId, term: nat)
    requires n in config && Configured(d, config) && NoDuplicates(config[n])
    requires n in c.elections && n in c.nodes && Is(c, n, term, c.nodes[n].role, false, [])
    requires b.elections == c.elections[n := c.elections[n][c.nodes[n].term + 1 := {}]]
    requires d.nodes[n] == OpenElection(c.nodes[n])
    requires d.elections == b.elections[n := MoreVotes(b.elections[n], term + 1, Voters(config[n]))]
    ensures Is(d, n, term + 1, Candidate, true, []) && Pending(d, config, n, term + 1)
    ensures d.elections == c.elections[n := d.elections[n]]
    ensures forall e | e in c.elections[n] && e <= term :: e in d.elections[n] && d.elections[n][e] == c.elections[n][e]
  {
    hide NoDuplicates;
    NewVotes(b, d, n, term + 1, config[n]);
  }

  /** After the first two elections: both have all votes, and neither has been counted. */
  lemma TwoElections(config: Config, a: NodeId, b: NodeId) returns (run: Run)
    requires GoodConfig(config) && a in config && b in config && a != b
    ensures Built(run) && run.config == config
    ensures Is(Last(run), a, 2, Follower, false, []) && Pending(Last(run), config, a, 1)
    ensures Is(Last(run), b, 2, Candidate, true, []) && Pending(Last(run), config, b, 2)
  {
    hide Run.Valid, GoodConfig, Continues, Init, AllBelow;
    run := Start(config);
    AtStart(config);
    run := CollectAll(run, a, 0);
    run := CollectAll(run, b, 1);
    IsNamed(run, a);
  }

  lemma AtStart(config: Config)
    requires GoodConfig(config)
    ensures AllBelow(Init(config), config, 0)
    ensures forall m | m in config :: m in Init(config).nodes && Is(Init(config), m, 0, Follower, false, [])
  {
    InitConfigured(config);
  }

  /** `a` stands again, which makes `b` step down, gives up, and then both stand in term 4. */
  lemma BothStand(before: Run, a: NodeId, b: NodeId) returns (run: Run)
    requires Built(before) && a in before.config && b in before.config && a != b && b in before.config[a]
    requires Is(Last(before), a, 2, Follower, false, []) && Pending(Last(before), before.config, a, 1)
    requires Is(Last(before), b, 2, Candidate, true, []) && Pending(Last(before), before.config, b, 2)
    ensures Built(run) && run.config == before.config
    ensures Is(Last(run), a, 4, Candidate, true, []) && Pending(Last(run), before.config, a, 1)
    ensures Is(Last(run), b, 4, Candidate, true, []) && Pending(Last(run), before.config, b, 2)
  {
    hide Run.Valid, GoodConfig, Continues;
    run := Stand(before, a);
    var answer: Answer;
    run, answer := Ask(run, a, 3, b);
    run := Tally(run, a, 3);
    run := Stand(run, a);
    run := Stand(run, b);
  }

  /** A count of all votes wins, whatever the election it was. */
  lemma AllVotesWin(before: Run, n: NodeId, e: nat, term: nat) returns (run: Run)
    requires Built(before)
    requires Is(Last(before), n, term, Candidate, true, []) && Pending(Last(before), before.config, n, e)
    ensures Built(run) && run.config == before.config
    ensures Is(Last(run), n, term, Role.Leader, false, []) && Last(run).nodes[n].peers == before.config[n]
    ensures Last(run).nodes == Last(before).nodes[n := Last(run).nodes[n]]
    ensures Last(run).elections == Last(before).elections[n := Last(run).elections[n]]
  {
    hide Run.Valid, GoodConfig, Continues;
    run := Tally(before, n, e);
  }

  /** Without the hypothesis on wins election safety and log matching fail, whatever the cluster, if it
      has two nodes at least: for any two nodes there is a run at whose end both lead the same term and
      their logs hold different entries of that term at the same position. Each of them wins by counting
      the votes of an election it had opened in an earlier term. */
  lemma StaleCountMakesTwoLeaders(config: Config, a: NodeId, b: NodeId, x: Command, y: Command) returns (run: Run)
    requires GoodConfig(config) && a in config && b in config && a != b && x != y
    ensures run.Valid() && run.config == config && !AllWinsCurrent(run)
    ensures a in Last(run).nodes && b in Last(run).nodes
    ensures var p, q := Last(run).nodes[a], Last(run).nodes[b];
            && p.role == Role.Leader && q.role == Role.Leader && p.term == q.term
            && !LogsMatch(p.log, q.log)
  {
    hide Run.Valid, GoodConfig, Continues, Pending, LogsMatch, AllWinsCurrent;
    OthersArePeers(config, a);
    OthersArePeers(config, b);
    run := TwoElections(config, a, b);
    run := BothStand(run, a, b);
    var won := AllVotesWin(run, a, 1, 4);
    StillPending(Last(run), Last(won), config, a, b, 2);
    run := AllVotesWin(won, b, 2, 4);
    run := BothSay(run, a, b, x, y, 4);
    DifferentFirsts(Last(run).nodes[a].log, Last(run).nodes[b].log);
    NotAllCurrent(run, a, b);
  }

  lemma StillPending(c: Cluster, d: Cluster, config: Config, a: NodeId, b: NodeId, e: nat)
    requires Pending(c, config, b, e) && a != b && a in d.nodes && a in d.elections
    requires d.nodes == c.nodes[a := d.nodes[a]] && d.elections == c.elections[a := d.elections[a]]
    ensures Pending(d, config, b, e)
  {
  }

  /** Both leaders accept a command. */
  lemma BothSay(before: Run, a: NodeId, b: NodeId, x: Command, y: Command, term: nat) returns (run: Run)
    requires Built(before) && a != b
    requires Is(Last(before), a, term, Role.Leader, false, []) && Last(before).nodes[a].peers != []
    requires Is(Last(before), b, term, Role.Leader, false, []) && Last(before).nodes[b].peers != []
    ensures Built(run) && run.config == before.config
    ensures Is(Last(run), a, term, Role.Leader, false, [LogEntry(term, 0, x)])
    ensures Is(Last(run), b, term, Role.Leader, false, [LogEntry(term, 0, y)])
  {
    hide Run.Valid, Continues;
    run := ClientSays(before, a, x);
    run := ClientSays(run, b, y);
  }

  lemma DifferentFirsts(p: Log, q: Log)
    requires |p| == |q| == 1 && p[0].term == q[0].term && p[0] != q[0]
    ensures !LogsMatch(p, q)
  {
    assert p[..1] == p && q[..1] == q;
  }

  lemma NotAllCurrent(run: Run, a: NodeId, b: NodeId)
    requires run.Valid() && run.states != [] && a in Last(run).nodes && b in Last(run).nodes && a != b
    requires var p, q := Last(run).nodes[a], Last(run).nodes[b];
             p.role == Role.Leader && q.role == Role.Leader && p.term == q.term
    ensures !AllWinsCurrent(run)
  {
    hide AllWinsCurrent;
    if AllWinsCurrent(run) { ElectionSafety(run, |run.steps|, |run.steps|, a, b); }
  }
}
