/** Building runs of the cluster step by step, to show what can happen. */
module RaftScenarios {
  import opened CoreTypes
  import opened RaftSpec
  import opened RaftCluster
  import opened RaftElections
  import opened RaftMessages
  import opened RaftCommit

  function Last(run: Run): Cluster {
    if run.states == [] then Init(run.config) else run.states[|run.states| - 1]
  }

  ghost predicate Built(run: Run) {
    run.Valid() && Last(run).Shaped()
  }

  /** What is assumed of elections and acknowledgements is as true of the longer run as of the shorter. */
  ghost predicate Continues(run: Run, run': Run)
    requires Built(run) && Built(run')
  {
    && run'.config == run.config
    && (AllWinsCurrent(run) ==> AllWinsCurrent(run'))
    && (AllAcksFresh(run) ==> AllAcksFresh(run'))
    && Last(run).calls <= Last(run').calls && Last(run).answers <= Last(run').answers
  }

  /** Between the two states only votes were asked for. */
  predicate OnlyVotes(c: Cluster, c': Cluster) {
    && c.calls <= c'.calls && c.answers <= c'.answers
    && forall q | q in c'.calls && q !in c.calls :: q.body.RequestVote?
  }

  // ---------------------------------------------------------------- one step

  lemma Extend(run: Run, s: Step) returns (run': Run)
    requires Built(run) && Enabled(Last(run), s)
    ensures Built(run') && run'.config == run.config && run'.steps == run.steps + [s]
    ensures run'.states == run.states + [Last(run')]
    ensures Last(run') == Apply(Last(run), s) && Next(Last(run), s, Last(run'))
    ensures CurrentWin(Last(run), s) && AllWinsCurrent(run) ==> AllWinsCurrent(run')
    ensures CurrentWin(Last(run), s) && FreshAck(Last(run), s) ==> Continues(run, run')
  {
    hide Enabled, GoodConfig, Init, CurrentWin, FreshAck;
    run' := Run(run.config, run.states + [Apply(Last(run), s)], run.steps + [s]);
    forall i | 0 <= i < |run'.steps|
      ensures Next(run'.states[i], run'.steps[i], run'.states[i + 1])
    {
      if i < |run.steps| {
        assert Next(run.states[i], run.steps[i], run.states[i + 1]);
      } else {
        assert run'.states[i] == Last(run);
      }
    }
    assert Next(Last(run), s, Last(run'));
    CallsStay(Last(run), s, Last(run'));
    if CurrentWin(Last(run), s) { KeepsWins(run, s, run'); }
    if FreshAck(Last(run), s) { KeepsAcks(run, s, run'); }
  }

  lemma KeepsWins(run: Run, s: Step, run': Run)
    requires Built(run) && Built(run') && run'.steps == run.steps + [s] && run'.states == run.states + [Last(run')]
    requires CurrentWin(Last(run), s)
    ensures AllWinsCurrent(run) ==> AllWinsCurrent(run')
  {
    hide CurrentWin, Next, GoodConfig, Init;
    assert forall i | 0 <= i < |run.steps| :: run'.steps[i] == run.steps[i] && run'.states[i] == run.states[i];
    assert run'.states[|run.steps|] == Last(run) && run'.steps[|run.steps|] == s;
  }

  lemma KeepsAcks(run: Run, s: Step, run': Run)
    requires Built(run) && Built(run') && run'.steps == run.steps + [s] && run'.states == run.states + [Last(run')]
    requires FreshAck(Last(run), s)
    ensures AllAcksFresh(run) ==> AllAcksFresh(run')
  {
    hide FreshAck, Next, GoodConfig, Init;
    assert forall i | 0 <= i < |run.steps| :: run'.steps[i] == run.steps[i] && run'.states[i] == run.states[i];
    assert run'.states[|run.steps|] == Last(run) && run'.steps[|run.steps|] == s;
  }

  lemma CallsStay(c: Cluster, s: Step, c': Cluster)
    requires Next(c, s, c')
    ensures c.calls <= c'.calls && c.answers <= c'.answers
  {
    hide HandleMessage, HearAppend, Submit;
  }

  lemma Start(config: Config) returns (run: Run)
    requires GoodConfig(config)
    ensures Built(run) && run.config == config && AllWinsCurrent(run) && AllAcksFresh(run)
    ensures Last(run) == Init(config)
  {
    run := Run(config, [Init(config)], []);
    InitConfigured(config);
  }

  lemma Members(run: Run)
    requires Built(run)
    ensures Configured(Last(run), run.config)
  {
    RunConfigured(run, |run.steps|);
  }

  /** `n` opens an election. */
  lemma Stand(run: Run, n: NodeId) returns (run': Run)
    requires Built(run)
    requires n in Last(run).nodes && Last(run).nodes[n].role != Role.Leader && !Last(run).nodes[n].electing
    ensures Built(run') && run'.config == run.config && Continues(run, run')
    ensures var c := Last(run);
            && n in c.elections
            && Last(run') == c.(nodes := c.nodes[n := OpenElection(c.nodes[n])],
                                elections := c.elections[n := c.elections[n][c.nodes[n].term + 1 := {}]])
  {
    hide Run.Valid, Continues, AllWinsCurrent;
    run' := Extend(run, Open(n));
  }

  /** The election of `n` opened in term `e` is counted. */
  lemma Tally(run: Run, n: NodeId, e: nat) returns (run': Run)
    requires Built(run)
    requires n in Last(run).nodes && n in Last(run).elections && e in Last(run).elections[n]
    ensures Built(run') && run'.config == run.config
    ensures var c := Last(run);
            && Last(run') == c.(nodes := c.nodes[n := CountVotes(c.nodes[n], |c.elections[n][e]|)],
                                elections := c.elections[n := c.elections[n] - {e}])
            && (c.nodes[n].term == e ==> Continues(run, run'))
  {
    hide Run.Valid, Continues, AllWinsCurrent;
    run' := Extend(run, Count(n, e));
  }

  /** A voter that hears of a term above its own, and of a log not behind its own, says yes. */
  function Converted(y: Node, term: nat, candidate: NodeId): Node {
    StepDown(y.(term := term, votedFor := Some(candidate)), None)
  }

  function Voters(s: seq<NodeId>): set<NodeId> {
    set v | v in s
  }

  function MoreVotes(elections: map<nat, set<NodeId>>, e: nat, vs: set<NodeId>): map<nat, set<NodeId>>
    requires e in elections
  {
    elections[e := elections[e] + vs]
  }

  lemma Converts(x: Node, y: Node)
    requires y.term < x.term && UpToDate(x.log, y.log)
    ensures HandleMessage(y, VoteRequest(x)) == (Converted(y, x.term, x.id), VoteResponse(y.id, x.term, true))
  {
  }

  /** `n` asks `v`, and `v` votes for it; the answer is under way. */
  lemma Ask(run: Run, n: NodeId, e: nat, v: NodeId) returns (run': Run, a: Answer)
    requires Built(run)
    requires var c := Last(run);
             && n in c.nodes && n in c.elections && e in c.elections[n] && v in c.nodes[n].peers && v in c.nodes
             && c.nodes[v].term < c.nodes[n].term && UpToDate(c.nodes[n].log, c.nodes[v].log)
    ensures Built(run') && run'.config == run.config && Continues(run, run') && OnlyVotes(Last(run), Last(run'))
    ensures var c := Last(run);
            && Last(run').nodes == c.nodes[v := Converted(c.nodes[v], c.nodes[n].term, c.nodes[n].id)]
            && Last(run').elections == c.elections
            && a in Last(run').answers
            && a == Answer(Call(v, e, VoteRequest(c.nodes[n])), VoteResponse(c.nodes[v].id, c.nodes[n].term, true))
  {
    hide Run.Valid, UpToDate, HandleMessage, AllWinsCurrent, AllAcksFresh;
    var c := Last(run);
    var q := Call(v, e, VoteRequest(c.nodes[n]));
    var asked := Extend(run, AskVote(n, e, v));
    run' := Extend(asked, Deliver(q));
    Converts(c.nodes[n], c.nodes[v]);
    a := Answer(q, HandleMessage(c.nodes[v], q.body).1);
  }

  /** `n` asks `v`, gets its vote and hears of it. */
  lemma Canvass(run: Run, n: NodeId, e: nat, v: NodeId) returns (run': Run)
    requires Built(run)
    requires var c := Last(run);
             && n in c.nodes && n in c.elections && e in c.elections[n] && v in c.nodes[n].peers && v in c.nodes
             && c.nodes[v].term < c.nodes[n].term && UpToDate(c.nodes[n].log, c.nodes[v].log) && v != n
             && c.nodes[n].id == n
    ensures Built(run') && run'.config == run.config && Continues(run, run') && OnlyVotes(Last(run), Last(run'))
    ensures var c := Last(run);
            && Last(run').nodes == c.nodes[v := Converted(c.nodes[v], c.nodes[n].term, n)]
            && Last(run').elections == c.elections[n := MoreVotes(c.elections[n], e, {v})]
  {
    hide Run.Valid, UpToDate, AllWinsCurrent, AllAcksFresh;
    var asked, a := Ask(run, n, e, v);
    run' := Extend(asked, Step.HearVoteAnswer(a));
    assert Last(run').nodes == Last(asked).nodes;
  }

  // ---------------------------------------------------------------- elections

  /** Who may be asked for a vote. */
  predicate Willing(c: Cluster, n: NodeId, voters: seq<NodeId>)
    requires n in c.nodes
  {
    forall v | v in voters ::
      && v in c.nodes[n].peers && v in c.nodes && v != n
      && c.nodes[v].term < c.nodes[n].term && UpToDate(c.nodes[n].log, c.nodes[v].log)
  }

  /** The nodes once these voters have voted. */
  predicate HaveVoted(c: Cluster, c': Cluster, n: NodeId, term: nat, voters: seq<NodeId>) {
    && c'.nodes.Keys == c.nodes.Keys
    && forall m | m in c.nodes ::
         c'.nodes[m] == if m in voters then Converted(c.nodes[m], term, n) else c.nodes[m]
  }

  /** `n` gets the votes of all these. */
  lemma {:induction false} Collect(run: Run, n: NodeId, e: nat, voters: seq<NodeId>) returns (run': Run)
    requires Built(run) && NoDuplicates(voters)
    requires var c := Last(run);
             n in c.nodes && n in c.elections && e in c.elections[n] && c.nodes[n].id == n && Willing(c, n, voters)
    ensures Built(run') && run'.config == run.config && Continues(run, run') && OnlyVotes(Last(run), Last(run'))
    ensures var c := Last(run);
            && HaveVoted(c, Last(run'), n, c.nodes[n].term, voters)
            && Last(run').elections
               == c.elections[n := MoreVotes(c.elections[n], e, Voters(voters))]
  {
    hide Built, Continues, Willing, HaveVoted, Converted, UpToDate, NoDuplicates;
    var c := Last(run);
    if voters == [] {
      run' := run;
      ContinuesItself(run);
      NobodyVoted(c, n, e, voters);
    } else {
      var k := |voters| - 1;
      WillingButLast(c, n, voters);
      var before := Collect(run, n, e, voters[..k]);
      StillWilling(c, Last(before), n, c.nodes[n].term, voters);
      run' := Canvass(before, n, e, voters[k]);
      ContinuesOn(run, before, run');
      OneMoreVoted(c, Last(before), Last(run'), n, c.nodes[n].term, voters);
      OneMoreVote(c, Last(before), n, e, voters);
    }
  }

  lemma ContinuesItself(run: Run)
    requires Built(run)
    ensures Continues(run, run)
  {
  }

  lemma ContinuesOn(run: Run, mid: Run, run': Run)
    requires Built(run) && Built(mid) && Built(run') && Continues(run, mid) && Continues(mid, run')
    ensures Continues(run, run')
  {
    hide AllWinsCurrent, AllAcksFresh, Run.Valid;
  }

  lemma NobodyVoted(c: Cluster, n: NodeId, e: nat, voters: seq<NodeId>)
    requires n in c.nodes && n in c.elections && e in c.elections[n] && voters == []
    ensures HaveVoted(c, c, n, c.nodes[n].term, voters)
    ensures c.elections == c.elections[n := MoreVotes(c.elections[n], e, Voters(voters))]
  {
    assert Voters(voters) == {} && c.elections[n][e] + Voters(voters) == c.elections[n][e];
    assert MoreVotes(c.elections[n], e, Voters(voters)) == c.elections[n];
  }

  lemma WillingButLast(c: Cluster, n: NodeId, voters: seq<NodeId>)
    requires n in c.nodes && Willing(c, n, voters) && voters != [] && NoDuplicates(voters)
    ensures Willing(c, n, voters[..|voters| - 1]) && NoDuplicates(voters[..|voters| - 1])
  {
    hide UpToDate;
  }

  /** The last voter has not been asked yet, and the candidate is as it was. */
  lemma StillWilling(c: Cluster, b: Cluster, n: NodeId, term: nat, voters: seq<NodeId>)
    requires n in c.nodes && Willing(c, n, voters) && voters != [] && NoDuplicates(voters)
    requires HaveVoted(c, b, n, term, voters[..|voters| - 1])
    ensures var v := voters[|voters| - 1];
            && n in b.nodes && b.nodes[n] == c.nodes[n] && v in c.nodes && v in b.nodes && b.nodes[v] == c.nodes[v]
            && v in c.nodes[n].peers && v != n
            && c.nodes[v].term < c.nodes[n].term && UpToDate(c.nodes[n].log, c.nodes[v].log)
  {
    hide UpToDate, Converted;
    var v := voters[|voters| - 1];
    assert v !in voters[..|voters| - 1];
    assert n !in voters;
  }

  lemma OneMoreVoted(c: Cluster, b: Cluster, c': Cluster, n: NodeId, term: nat, voters: seq<NodeId>)
    requires voters != [] && NoDuplicates(voters)
    requires var v := voters[|voters| - 1];
             && HaveVoted(c, b, n, term, voters[..|voters| - 1]) && v in c.nodes && b.nodes[v] == c.nodes[v]
             && c'.nodes == b.nodes[v := Converted(b.nodes[v], term, n)]
    ensures HaveVoted(c, c', n, term, voters)
  {
    hide Converted;
    var init, v := voters[..|voters| - 1], voters[|voters| - 1];
    assert forall w :: w in voters <==> w in init || w == v;
  }

  lemma OneMoreVote(c: Cluster, b: Cluster, n: NodeId, e: nat, voters: seq<NodeId>)
    requires n in c.elections && e in c.elections[n] && voters != []
    requires b.elections == c.elections[n := MoreVotes(c.elections[n], e, Voters(voters[..|voters| - 1]))]
    ensures b.elections[n := MoreVotes(b.elections[n], e, {voters[|voters| - 1]})]
            == c.elections[n := MoreVotes(c.elections[n], e, Voters(voters))]
  {
    var k := |voters| - 1;
    assert voters == voters[..k] + [voters[k]];
    assert Voters(voters) == Voters(voters[..k]) + {voters[k]};
    assert c.elections[n][e] + Voters(voters[..k]) + {voters[k]} == c.elections[n][e] + Voters(voters);
    assert MoreVotes(b.elections[n], e, {voters[k]}) == MoreVotes(c.elections[n], e, Voters(voters));
  }

  /** `n` wins an election with these votes. */
  lemma Elect(run: Run, n: NodeId, voters: seq<NodeId>) returns (run': Run)
    requires Built(run) && NoDuplicates(voters)
    requires var c := Last(run);
             && n in c.nodes && c.nodes[n].role != Role.Leader && !c.nodes[n].electing
             && 1 + |voters| >= QuorumSize(|c.nodes[n].peers|)
             && forall v | v in voters ::
                  && v in c.nodes[n].peers && v in c.nodes && v != n
                  && c.nodes[v].term <= c.nodes[n].term && UpToDate(c.nodes[n].log, c.nodes[v].log)
    ensures Built(run') && run'.config == run.config && Continues(run, run') && OnlyVotes(Last(run), Last(run'))
    ensures var c, c' := Last(run), Last(run');
            && c'.nodes.Keys == c.nodes.Keys
            && forall m | m in c.nodes ::
                 c'.nodes[m] == if m == n then Lead(OpenElection(c.nodes[n])).(electing := false)
                                else if m in voters then Converted(c.nodes[m], c.nodes[n].term + 1, n) else c.nodes[m]
  {
    hide Built, Continues, Willing, HaveVoted, UpToDate, Converted, Lead, NoDuplicates, QuorumSize;
    var c := Last(run);
    var e := c.nodes[n].term + 1;
    IsNamed(run, n);
    var stood := Stand(run, n);
    WillingOnceStood(c, Last(stood), n, voters);
    var voted := Collect(stood, n, e, voters);
    CandidateStays(Last(stood), Last(voted), n, e, voters);
    NewVotes(Last(stood), Last(voted), n, e, voters);
    run' := Tally(voted, n, e);
    ContinuesOn(run, stood, voted);
    ContinuesOn(run, voted, run');
    ElectedBy(c, Last(stood), Last(voted), Last(run'), n, voters);
  }

  lemma IsNamed(run: Run, n: NodeId)
    requires Built(run) && n in Last(run).nodes
    ensures Last(run).nodes[n].id == n && n in Last(run).elections && n in run.config
    ensures Last(run).nodes[n].peers == run.config[n]
  {
    Members(run);
  }

  lemma WillingOnceStood(c: Cluster, b: Cluster, n: NodeId, voters: seq<NodeId>)
    requires n in c.nodes && b.nodes == c.nodes[n := OpenElection(c.nodes[n])]
    requires forall v | v in voters ::
               && v in c.nodes[n].peers && v in c.nodes && v != n
               && c.nodes[v].term <= c.nodes[n].term && UpToDate(c.nodes[n].log, c.nodes[v].log)
    ensures Willing(b, n, voters)
  {
    hide UpToDate;
  }

  lemma CandidateStays(b: Cluster, d: Cluster, n: NodeId, term: nat, voters: seq<NodeId>)
    requires n in b.nodes && n !in voters && HaveVoted(b, d, n, term, voters)
    ensures n in d.nodes && d.nodes[n] == b.nodes[n]
  {
  }

  lemma NewVotes(b: Cluster, d: Cluster, n: NodeId, e: nat, voters: seq<NodeId>)
    requires n in b.elections && e in b.elections[n] && b.elections[n][e] == {} && NoDuplicates(voters)
    requires d.elections == b.elections[n := MoreVotes(b.elections[n], e, Voters(voters))]
    ensures n in d.elections && e in d.elections[n] && |d.elections[n][e]| == |voters|
  {
    SetOfDistinct(voters);
    assert {} + Voters(voters) == Voters(voters);
  }

  lemma ElectedBy(c: Cluster, b: Cluster, d: Cluster, c': Cluster, n: NodeId, voters: seq<NodeId>)
    requires n in c.nodes && 1 + |voters| >= QuorumSize(|c.nodes[n].peers|) && n !in voters
    requires b.nodes == c.nodes[n := OpenElection(c.nodes[n])] && HaveVoted(b, d, n, c.nodes[n].term + 1, voters)
    requires n in d.nodes && c'.nodes == d.nodes[n := CountVotes(d.nodes[n], |voters|)]
    ensures c'.nodes.Keys == c.nodes.Keys
    ensures forall m | m in c.nodes ::
              c'.nodes[m] == if m == n then Lead(OpenElection(c.nodes[n])).(electing := false)
                             else if m in voters then Converted(c.nodes[m], c.nodes[n].term + 1, n) else c.nodes[m]
  {
    hide Converted;
  }

  // ---------------------------------------------------------------- everybody's vote

  /** All nodes are this far behind, with empty logs. */
  predicate AllBelow(c: Cluster, config: Config, term: nat) {
    && c.nodes.Keys == config.Keys
    && forall m | m in c.nodes :: c.nodes[m].term <= term && c.nodes[m].log == []
  }

  lemma OthersAreWilling(run: Run, n: NodeId, term: nat)
    requires Built(run) && n in run.config && AllBelow(Last(run), run.config, term)
    requires Last(run).nodes[n].term == term
    ensures NoDuplicates(run.config[n])
    ensures var c := Last(run);
            && n in c.elections && c.nodes[n].id == n && c.nodes[n].peers == run.config[n]
            && forall v | v in run.config[n] ::
                 && v in c.nodes[n].peers && v in c.nodes && v != n
                 && c.nodes[v].term <= term && UpToDate(c.nodes[n].log, c.nodes[v].log)
  {
    hide AllWinsCurrent;
    IsNamed(run, n);
    forall v | v in run.config[n]
      ensures v in run.config && v != n
    {
      PeerIsMember(run.config, n, v);
    }
  }

  lemma IsGood(run: Run)
    requires Built(run)
    ensures GoodConfig(run.config)
  {
  }

  lemma OthersArePeers(config: Config, n: NodeId)
    requires GoodConfig(config) && n in config
    ensures forall m | m in config && m != n :: m in config[n]
  {
    forall m | m in config && m != n
      ensures m in config[n]
    {
      assert m in config.Keys - {n};
    }
  }

  // ---------------------------------------------------------------- logs

  lemma ClientSays(run: Run, n: NodeId, command: Command) returns (run': Run)
    requires Built(run) && n in Last(run).nodes && Last(run).nodes[n].role == Role.Leader
    ensures Built(run') && run'.config == run.config && Continues(run, run')
    ensures var c := Last(run); Last(run') == c.(nodes := c.nodes[n := Submit(c.nodes[n], command)])
  {
    hide Run.Valid, Continues, AllWinsCurrent, Submit;
    run' := Extend(run, ClientSubmit(n, command));
  }

  /** `n` sends `peer` what its table says. */
  lemma Send(run: Run, n: NodeId, peer: NodeId) returns (run': Run, q: Call)
    requires Built(run) && n in Last(run).nodes && peer in Last(run).nodes[n].peers
    ensures Built(run') && run'.config == run.config && Continues(run, run')
    ensures var c := Last(run);
            && peer in c.nodes[n].nextIndex && q == Call(peer, 0, AppendRequest(c.nodes[n], peer))
            && Last(run') == c.(calls := c.calls + {q})
  {
    hide Run.Valid, Continues, AllWinsCurrent, AppendRequest;
    Members(run);
    run' := Extend(run, Step.Replicate(n, peer));
    q := Call(peer, 0, AppendRequest(Last(run).nodes[n], peer));
  }

  /** A call arrives, whenever it was sent. */
  lemma Arrive(run: Run, q: Call) returns (run': Run, a: Answer)
    requires Built(run) && q in Last(run).calls && q.to in Last(run).nodes
    ensures Built(run') && run'.config == run.config && Continues(run, run')
    ensures var c := Last(run); var r := HandleMessage(c.nodes[q.to], q.body);
            a == Answer(q, r.1) && Last(run') == c.(nodes := c.nodes[q.to := r.0], answers := c.answers + {a})
  {
    hide Run.Valid, Continues, AllWinsCurrent, HandleMessage;
    run' := Extend(run, Deliver(q));
    a := Answer(q, HandleMessage(Last(run).nodes[q.to], q.body).1);
  }

  /** A sender hears the answer to an append request, whenever it was given. */
  lemma HearBack(run: Run, a: Answer) returns (run': Run)
    requires Built(run) && a in Last(run).answers && a.call.body.AppendEntries?
    requires a.call.body.sender in Last(run).nodes && a.call.to in Last(run).nodes[a.call.body.sender].peers
    ensures Built(run') && run'.config == run.config && run'.steps == run.steps + [Step.HearAppendAnswer(a)]
    ensures run'.states == run.states + [Last(run')]
    ensures FreshAck(Last(run), Step.HearAppendAnswer(a)) ==> Continues(run, run')
    ensures AllWinsCurrent(run) ==> AllWinsCurrent(run')
    ensures var c := Last(run); var n := a.call.body.sender;
            && c.nodes[n].Tracks()
            && Last(run') == c.(nodes := c.nodes[n := HearAppend(c.nodes[n], a.call.to, a.call.body, a.body)])
  {
    hide Run.Valid, Continues, AllWinsCurrent, HearAppend, FreshAck;
    Members(run);
    run' := Extend(run, Step.HearAppendAnswer(a));
  }
}
