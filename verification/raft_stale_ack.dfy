/** Why quorum-backed commit needs its hypotheses: runs in which a leader commits what no other node has
    ever held, once on an acknowledgement of an older leadership, once at position 0. */
module RaftStaleAck {
  import opened CoreTypes
  import opened RaftLog
  import opened RaftMedian
  import opened RaftSpec
  import opened RaftCluster
  import opened RaftElections
  import opened RaftMessages
  import opened RaftCommit
  import opened RaftScenarios

  predicate At(x: Node, n: NodeId, term: nat, role: Role, log: Log) {
    && x.id == n && x.Tracks() && x.term == term && x.role == role && x.log == log && !x.electing
    && x.commitIndex == x.lastApplied == -1
  }

  /** The table of a new leader. */
  predicate NewTable(x: Node, next: nat) {
    forall p | p in x.peers ::
      p in x.nextIndex && x.nextIndex[p] == next && p in x.matchIndex && x.matchIndex[p] == 0
  }

  /** No leader of this term, or of a later one, has sent entries. */
  predicate NothingSentIn(calls: set<Call>, term: nat) {
    forall q | q in calls && q.body.AppendEntries? :: q.body.term < term
  }

  // ---------------------------------------------------------------- what nobody has acknowledged

  lemma {:induction false} CallsOnlyGrow(run: Run, i: nat, k: nat)
    requires run.Valid() && i <= k < |run.states|
    ensures run.states[i].calls <= run.states[k].calls
    decreases k
  {
    hide Next, GoodConfig, Init;
    if i < k {
      CallsOnlyGrow(run, i, k - 1);
      assert Next(run.states[k - 1], run.steps[k - 1], run.states[k]);
      CallsStay(run.states[k - 1], run.steps[k - 1], run.states[k]);
    }
  }

  /** What was never sent was never acknowledged. */
  lemma NobodyAcknowledged(run: Run, p: NodeId, n: NodeId, term: nat, prefix: Log)
    requires run.Valid() && NothingSentIn(Last(run).calls, term)
    ensures !Acknowledged(run, |run.steps|, p, n, term, prefix)
  {
    hide Next, GoodConfig, Init, HandleMessage;
    forall j | 0 <= j < |run.steps|
      ensures !HeldWhenAcknowledging(run, j, p, n, term, prefix)
    {
      assert Next(run.states[j], run.steps[j], run.states[j + 1]);
      if run.steps[j].Deliver? {
        DeliverEffect(run.states[j], run.steps[j], run.states[j + 1]);
        CallsOnlyGrow(run, j, |run.steps|);
      }
    }
  }

  // ---------------------------------------------------------------- one node

  /** A node that has nothing in common with the entries sent from the start takes them over. */
  lemma TakesOver(y: Node, m: Message)
    requires m.AppendEntries? && m.prevLogIndex == -1 == m.leaderCommit && y.commitIndex == y.lastApplied == -1
    requires m.entries == [] || y.log == [] || y.log[0].term != m.entries[0].term
    requires !y.electing
    ensures var (z, answer) := HandleMessage(y, m);
            && z.role == Follower && !z.electing && z.log == (if m.entries == [] then y.log else m.entries)
            && z.term == Max(y.term, m.term) && Keeps(y, z) && z.commitIndex == z.lastApplied == -1
            && answer == AppendResponse(y.id, z.term, true, |z.log| - 1)
  {
    hide Agreeing;
    assert Agreeing(y.log, 0, m.entries) == 0;
    assert y.log[..0] + m.entries[0..] == m.entries;
  }

  lemma LeadsFresh(x: Node)
    ensures var y := Lead(OpenElection(x)).(electing := false);
            && y.role == Role.Leader && y.term == x.term + 1 && y.log == x.log && Keeps(x, y)
            && y.commitIndex == x.commitIndex && y.lastApplied == x.lastApplied && y.applied == x.applied
            && NewTable(y, |x.log|)
  {
  }

  /** A leader whose table is fresh sends its whole log. */
  lemma SendsAll(x: Node, peer: NodeId)
    requires peer in x.nextIndex && x.nextIndex[peer] == 0 && x.commitIndex == -1
    ensures AppendRequest(x, peer) == AppendEntries(x.id, x.term, -1, 0, x.log, -1)
  {
  }

  lemma SubmitsOnly(x: Node, command: Command)
    requires x.peers != []
    ensures Submit(x, command) == x.(log := x.log + [LogEntry(x.term, |x.log|, command)])
  {
  }

  // ---------------------------------------------------------------- position 0

  /** All others vote for `n`, which then leads term 1 with an empty log. */
  lemma FirstLeader(config: Config, n: NodeId) returns (run: Run)
    requires GoodConfig(config) && n in config
    ensures Built(run) && run.config == config && AllWinsCurrent(run) && AllAcksFresh(run)
    ensures Last(run).nodes.Keys == config.Keys && Last(run).nodes[n].peers == config[n]
    ensures At(Last(run).nodes[n], n, 1, Role.Leader, []) && Last(run).nodes[n].applied == []
    ensures NewTable(Last(run).nodes[n], 0)
    ensures forall m | m in config && m != n :: At(Last(run).nodes[m], m, 1, Follower, [])
  {
    hide Run.Valid, GoodConfig, AllWinsCurrent, AllAcksFresh, UpToDate, Lead, QuorumSize, NoDuplicates;
    run := Start(config);
    InitConfigured(config);
    OthersAreWilling(run, n, 0);
    EverybodyIsAQuorum(config, n);
    OthersArePeers(config, n);
    LeadsFresh(Last(run).nodes[n]);
    run := Elect(run, n, config[n]);
  }

  lemma EverybodyIsAQuorum(config: Config, n: NodeId)
    requires GoodConfig(config) && n in config
    ensures 1 + |config[n]| >= QuorumSize(|config[n]|)
  {
  }

  /** In every cluster of two nodes or more, and with every win and every acknowledgement in order, a
      leader can commit and apply its first entry while every other log is empty. */
  lemma PositionZeroIsCommittedAlone(config: Config, n: NodeId, p: NodeId, command: Command) returns (run: Run)
    requires GoodConfig(config) && n in config && p in config[n]
    ensures run.Valid() && run.config == config && AllWinsCurrent(run) && AllAcksFresh(run)
    ensures Last(run).nodes.Keys == config.Keys
    ensures var x := Last(run).nodes[n];
            && x.role == Role.Leader && x.commitIndex == 0 && x.applied == x.log == [LogEntry(x.term, 0, command)]
    ensures forall m | m in config && m != n :: Last(run).nodes[m].log == []
  {
    hide Run.Valid, GoodConfig, AllWinsCurrent, AllAcksFresh, HearAppend, HandleMessage, AppendRequest, Submit;
    run := FirstLeader(config, n);
    PeerIsMember(config, n, p);
    var x := Last(run).nodes[n];
    SendsAll(x, p);
    var q: Call;
    run, q := Send(run, n, p);
    TakesOver(Last(run).nodes[p], q.body);
    var a: Answer;
    run, a := Arrive(run, q);
    SubmitsOnly(x, command);
    run := ClientSays(run, n, command);
    PositionZeroNeedsNoBacking(Last(run).nodes[n], p, q.body, a.body);
    HearingTable(Last(run).nodes[n], p, q.body, a.body);
    run := HearBack(run, a);
  }

  // ---------------------------------------------------------------- an acknowledgement of an older leadership

  /** Three nodes, named `a`, `b` and `c`. */
  predicate Three(config: Config, a: NodeId, b: NodeId, c: NodeId) {
    && GoodConfig(config) && config.Keys == {a, b, c} && a != b && b != c && c != a
  }

  lemma ThreePeers(config: Config, a: NodeId, b: NodeId, c: NodeId)
    requires Three(config, a, b, c)
    ensures b in config[a] && c in config[a] && b in config[c] && a in config[c] && a in config[b] && c in config[b]
    ensures |config[a]| == |config[b]| == |config[c]| == 2
    ensures |config| == 3 && QuorumSize(2) == 2
  {
    OthersArePeers(config, a);
    OthersArePeers(config, b);
    OthersArePeers(config, c);
    PeersAreTheOthers(config, a);
    PeersAreTheOthers(config, b);
    PeersAreTheOthers(config, c);
    assert |config.Keys| == 3;
  }

  /** A run of the configuration with every win in order, in which nothing was sent in term `unsent` or
      later. */
  ghost predicate Orderly(run: Run, config: Config, unsent: nat) {
    && Built(run) && run.config == config && AllWinsCurrent(run)
    && Last(run).nodes.Keys == config.Keys && NothingSentIn(Last(run).calls, unsent)
  }

  lemma StaysOrderly(run: Run, run': Run, config: Config, unsent: nat)
    requires Orderly(run, config, unsent) && Built(run') && Continues(run, run')
    requires Last(run').nodes.Keys == config.Keys && NothingSentIn(Last(run').calls, unsent)
    ensures Orderly(run', config, unsent)
  {
    hide AllWinsCurrent, AllAcksFresh, NothingSentIn;
  }

  /** `n` wins the next term with the vote of `v` alone. */
  lemma ElectBy(before: Run, config: Config, unsent: nat, n: NodeId, v: NodeId, term: nat, log: Log) returns (run: Run)
    requires Orderly(before, config, unsent) && n in config && v in config[n] && |config[n]| == 2
    requires v in config && v != n
    requires Last(before).nodes.Keys == config.Keys
    requires var x, y := Last(before).nodes[n], Last(before).nodes[v];
             && At(x, n, term, x.role, log) && x.role != Role.Leader
             && At(y, v, y.term, y.role, y.log) && y.term <= term && UpToDate(log, y.log)
    ensures Orderly(run, config, unsent) && Last(run).nodes.Keys == config.Keys
    ensures Last(before).calls <= Last(run).calls && Last(before).answers <= Last(run).answers
    ensures At(Last(run).nodes[n], n, term + 1, Role.Leader, log) && NewTable(Last(run).nodes[n], |log|)
    ensures At(Last(run).nodes[v], v, term + 1, Follower, Last(before).nodes[v].log)
    ensures forall m | m in config && m != n && m != v :: Last(run).nodes[m] == Last(before).nodes[m]
  {
    hide Run.Valid, Continues, UpToDate, Lead, GoodConfig, NewTable, AllWinsCurrent;
    IsNamed(before, n);
    LeadsFresh(Last(before).nodes[n]);
    run := Elect(before, n, [v]);
    StaysOrderly(before, run, config, unsent);
  }

  /** `n` accepts a command. */
  lemma Says(before: Run, config: Config, unsent: nat, n: NodeId, term: nat, log: Log, next: nat, command: Command)
    returns (run: Run)
    requires Orderly(before, config, unsent) && n in config && config[n] != []
    requires Last(before).nodes.Keys == config.Keys
    requires At(Last(before).nodes[n], n, term, Role.Leader, log) && NewTable(Last(before).nodes[n], next)
    ensures Orderly(run, config, unsent) && Last(run).nodes.Keys == config.Keys
    ensures Last(run).calls == Last(before).calls && Last(run).answers == Last(before).answers
    ensures At(Last(run).nodes[n], n, term, Role.Leader, log + [LogEntry(term, |log|, command)])
    ensures NewTable(Last(run).nodes[n], next)
    ensures forall m | m in config && m != n :: Last(run).nodes[m] == Last(before).nodes[m]
  {
    hide Run.Valid, Continues, GoodConfig, Submit, AllWinsCurrent, NothingSentIn;
    IsNamed(before, n);
    SubmitsOnly(Last(before).nodes[n], command);
    run := ClientSays(before, n, command);
    StaysOrderly(before, run, config, unsent);
  }

  /** A new leader whose log was empty when it won sends its whole log. */
  lemma SendLog(before: Run, config: Config, unsent: nat, n: NodeId, peer: NodeId, term: nat, log: Log)
    returns (run: Run, q: Call)
    requires Orderly(before, config, unsent) && n in config && peer in config[n] && term < unsent
    requires Last(before).nodes.Keys == config.Keys
    requires At(Last(before).nodes[n], n, term, Role.Leader, log) && NewTable(Last(before).nodes[n], 0)
    ensures Orderly(run, config, unsent) && q == Call(peer, 0, AppendEntries(n, term, -1, 0, log, -1))
    ensures Last(run).nodes == Last(before).nodes && Last(run).calls == Last(before).calls + {q}
    ensures Last(run).answers == Last(before).answers
  {
    hide Run.Valid, Continues, GoodConfig, AppendRequest, AllWinsCurrent;
    IsNamed(before, n);
    SendsAll(Last(before).nodes[n], peer);
    run, q := Send(before, n, peer);
    StaysOrderly(before, run, config, unsent);
  }

  /** It arrives at a node whose log starts differently, or is empty. */
  lemma LogArrives(before: Run, config: Config, unsent: nat, q: Call, sender: NodeId, term: nat, log: Log)
    returns (run: Run, answer: Answer)
    requires Orderly(before, config, unsent) && q.to in config && Last(before).nodes.Keys == config.Keys
    requires q in Last(before).calls && q.body == AppendEntries(sender, term, -1, 0, log, -1) && log != []
    requires var y := Last(before).nodes[q.to];
             At(y, q.to, y.term, y.role, y.log) && (y.log == [] || y.log[0].term != log[0].term)
    ensures Orderly(run, config, unsent) && Last(run).nodes.Keys == config.Keys
    ensures Last(run).calls == Last(before).calls && Last(run).answers == Last(before).answers + {answer}
    ensures var after := Max(Last(before).nodes[q.to].term, term);
            && At(Last(run).nodes[q.to], q.to, after, Follower, log)
            && answer == Answer(q, AppendResponse(q.to, after, true, |log| - 1))
    ensures forall m | m in config && m != q.to :: Last(run).nodes[m] == Last(before).nodes[m]
  {
    hide Run.Valid, Continues, GoodConfig, HandleMessage, AllWinsCurrent, NothingSentIn;
    TakesOver(Last(before).nodes[q.to], q.body);
    run, answer := Arrive(before, q);
    StaysOrderly(before, run, config, unsent);
  }

  // ---------------------------------------------------------------- three leaderships

  function OldLog(command: Command): Log {
    [LogEntry(1, 0, command)] + [LogEntry(1, 1, command)]
  }

  function NewLog(command: Command): Log {
    [LogEntry(2, 0, command)]
  }

  function LastLog(command: Command): Log {
    NewLog(command) + [LogEntry(3, 1, command)] + [LogEntry(3, 2, command)]
  }

  /** A stage of the run: where the three nodes are. */
  ghost predicate Stage(run: Run, config: Config, unsent: nat, a: NodeId, b: NodeId, c: NodeId) {
    Three(config, a, b, c) && Orderly(run, config, unsent) && Last(run).nodes.Keys == config.Keys
  }

  lemma Begin(config: Config) returns (run: Run)
    requires GoodConfig(config)
    ensures Orderly(run, config, 2) && Last(run).nodes.Keys == config.Keys
    ensures forall m | m in config :: At(Last(run).nodes[m], m, 0, Follower, [])
  {
    run := Start(config);
    InitConfigured(config);
  }

  /** `a` leads term 1 with two entries, and sends both to `b`; the request is still under way. */
  lemma OldLeadership(config: Config, a: NodeId, b: NodeId, c: NodeId, command: Command) returns (run: Run, q: Call)
    requires Three(config, a, b, c)
    ensures Stage(run, config, 2, a, b, c)
    ensures At(Last(run).nodes[a], a, 1, Role.Leader, OldLog(command)) && At(Last(run).nodes[b], b, 0, Follower, [])
    ensures At(Last(run).nodes[c], c, 1, Follower, [])
    ensures q in Last(run).calls && q == Call(b, 0, AppendEntries(a, 1, -1, 0, OldLog(command), -1))
  {
    hide Orderly, GoodConfig, NewTable, QuorumSize;
    ThreePeers(config, a, b, c);
    run := Begin(config);
    run := ElectBy(run, config, 2, a, c, 0, []);
    run := Says(run, config, 2, a, 1, [], 0, command);
    assert [] + [LogEntry(1, 0, command)] == [LogEntry(1, 0, command)];
    run := Says(run, config, 2, a, 1, [LogEntry(1, 0, command)], 0, command);
    run, q := SendLog(run, config, 2, a, b, 1, OldLog(command));
  }

  /** `c` wins term 2 with the vote of `b`. Then the old request reaches `b`, which accepts it. */
  lemma OldRequestArrives(before: Run, q: Call, config: Config, a: NodeId, b: NodeId, c: NodeId, command: Command)
    returns (run: Run, answer: Answer)
    requires Stage(before, config, 2, a, b, c)
    requires At(Last(before).nodes[a], a, 1, Role.Leader, OldLog(command))
    requires At(Last(before).nodes[b], b, 0, Follower, []) && At(Last(before).nodes[c], c, 1, Follower, [])
    requires q in Last(before).calls && q == Call(b, 0, AppendEntries(a, 1, -1, 0, OldLog(command), -1))
    ensures Stage(run, config, 3, a, b, c)
    ensures At(Last(run).nodes[a], a, 1, Role.Leader, OldLog(command))
    ensures At(Last(run).nodes[b], b, 2, Follower, OldLog(command))
    ensures At(Last(run).nodes[c], c, 2, Role.Leader, []) && NewTable(Last(run).nodes[c], 0)
    ensures answer in Last(run).answers && answer == Answer(q, AppendResponse(b, 2, true, 1))
  {
    hide Orderly, GoodConfig, NewTable, QuorumSize;
    ThreePeers(config, a, b, c);
    LaterUnsent(before, config, 2, 3);
    run := ElectBy(before, config, 3, c, b, 1, []);
    run, answer := LogArrives(run, config, 3, q, a, 1, OldLog(command));
  }

  lemma LaterUnsent(run: Run, config: Config, unsent: nat, later: nat)
    requires Orderly(run, config, unsent) && unsent <= later
    ensures Orderly(run, config, later)
  {
    hide Built, AllWinsCurrent;
  }

  /** The new leader's entry reaches `a`, whose log is cut. */
  lemma NewEntryArrives(before: Run, config: Config, a: NodeId, b: NodeId, c: NodeId, command: Command, answer: Answer)
    returns (run: Run)
    requires Stage(before, config, 3, a, b, c) && answer in Last(before).answers
    requires At(Last(before).nodes[a], a, 1, Role.Leader, OldLog(command))
    requires At(Last(before).nodes[b], b, 2, Follower, OldLog(command))
    requires At(Last(before).nodes[c], c, 2, Role.Leader, []) && NewTable(Last(before).nodes[c], 0)
    ensures Stage(run, config, 3, a, b, c) && answer in Last(run).answers
    ensures At(Last(run).nodes[a], a, 2, Follower, NewLog(command))
    ensures At(Last(run).nodes[b], b, 2, Follower, OldLog(command))
    ensures At(Last(run).nodes[c], c, 2, Role.Leader, NewLog(command))
  {
    hide Orderly, GoodConfig, NewTable, QuorumSize;
    ThreePeers(config, a, b, c);
    run := Says(before, config, 3, c, 2, [], 0, command);
    assert [] + NewLog(command) == NewLog(command);
    var sent: Call;
    run, sent := SendLog(run, config, 3, c, a, 2, NewLog(command));
    var ignored: Answer;
    run, ignored := LogArrives(run, config, 3, sent, c, 2, NewLog(command));
  }

  /** `a` wins term 3 with the vote of `c` and accepts two commands; the old answer is still unheard. */
  lemma ThirdLeadership(before: Run, config: Config, a: NodeId, b: NodeId, c: NodeId, command: Command, answer: Answer)
    returns (run: Run)
    requires Stage(before, config, 3, a, b, c) && answer in Last(before).answers
    requires At(Last(before).nodes[a], a, 2, Follower, NewLog(command))
    requires At(Last(before).nodes[b], b, 2, Follower, OldLog(command))
    requires At(Last(before).nodes[c], c, 2, Role.Leader, NewLog(command))
    ensures Stage(run, config, 3, a, b, c) && answer in Last(run).answers
    ensures At(Last(run).nodes[a], a, 3, Role.Leader, LastLog(command)) && NewTable(Last(run).nodes[a], 1)
    ensures At(Last(run).nodes[b], b, 2, Follower, OldLog(command))
    ensures At(Last(run).nodes[c], c, 3, Follower, NewLog(command))
  {
    hide Orderly, GoodConfig, NewTable, QuorumSize;
    ThreePeers(config, a, b, c);
    run := ElectBy(before, config, 3, a, c, 2, NewLog(command));
    run := Says(run, config, 3, a, 3, NewLog(command), 1, command);
    run := Says(run, config, 3, a, 3, NewLog(command) + [LogEntry(3, 1, command)], 1, command);
  }

  lemma InsertedSecond(v: int, s: seq<int>)
    requires |s| == 2 && s[0] < v <= s[1]
    ensures Inserted(v, s) == [s[0], v, s[1]]
  {
    var t := s[1..];
    assert Inserted(v, t) == [v] + t;
  }

  lemma SortedSecondFirst(s: seq<int>)
    requires |s| == 3 && s[1] < s[0] <= s[2]
    ensures Sorted(s) == [s[1], s[0], s[2]]
  {
    hide Inserted;
    SortedOfAscending(s[1..]);
    InsertedSecond(s[0], s[1..]);
  }

  lemma MedianOfThree(s: seq<int>)
    requires |s| == 3 && s[2] == 2 && ((s[0] == 0 && s[1] == 1) || (s[0] == 1 && s[1] == 0))
    ensures Median(s) == 1
  {
    hide Sorted;
    if s[0] == 0 {
      SortedOfAscending(s);
    } else {
      SortedSecondFirst(s);
    }
  }

  /** The old success moves the table of the new leadership, and with it the commit index. */
  lemma OldSuccessCommits(x: Node, p: NodeId, m: Message, answer: Message)
    requires x.Tracks() && p in x.peers && |x.peers| == 2 && NoDuplicates(x.peers) && NewTable(x, 1)
    requires x.role == Role.Leader && x.commitIndex == -1 && |x.log| == 3 && x.log[1].term == x.term
    requires m.AppendEntries? && m.prevLogIndex == -1 && |m.entries| == 2
    requires answer.AppendResponse? && answer.success
    ensures HearAppend(x, p, m, answer).commitIndex == 1 && HearAppend(x, p, m, answer).role == Role.Leader
    ensures HearAppend(x, p, m, answer).log == x.log && HearAppend(x, p, m, answer).term == x.term
  {
    hide Median, ApplyCommitted;
    var y := x.(matchIndex := x.matchIndex[p := 1], nextIndex := x.nextIndex[p := 2]);
    assert x.peers == [x.peers[0], x.peers[1]] && x.peers[0] != x.peers[1];
    assert MatchIndices(y) == [y.matchIndex[x.peers[0]], y.matchIndex[x.peers[1]], 2];
    MedianOfThree(MatchIndices(y));
  }

  lemma StaleAckIsNotFresh(run: Run, k: nat)
    requires run.Valid() && k < |run.steps| && !FreshAck(run.states[k], run.steps[k])
    ensures !AllAcksFresh(run)
  {
  }

  lemma DifferFromStart(p: Log, q: Log, n: nat)
    requires 0 < n <= |p| && (|q| < n || p[0] != q[0])
    ensures !(p[..n] <= q)
  {
    if |q| >= n { assert p[..n][0] == p[0]; }
  }

  lemma OldSuccessHeard(before: Run, config: Config, a: NodeId, b: NodeId, c: NodeId, command: Command, answer: Answer)
    returns (run: Run, k: nat)
    requires Stage(before, config, 3, a, b, c) && answer in Last(before).answers
    requires answer.call == Call(b, 0, AppendEntries(a, 1, -1, 0, OldLog(command), -1))
    requires answer.body == AppendResponse(b, 2, true, 1)
    requires At(Last(before).nodes[a], a, 3, Role.Leader, LastLog(command)) && NewTable(Last(before).nodes[a], 1)
    ensures Built(run) && run.config == config && AllWinsCurrent(run) && !AllAcksFresh(run)
    ensures |run.steps| == k + 1 && run.states[k] == Last(before) && run.states[k + 1] == Last(run)
    ensures Last(run).calls == Last(before).calls
    ensures a in Last(run).nodes && Last(run).nodes == Last(before).nodes[a := Last(run).nodes[a]]
    ensures var y := Last(run).nodes[a];
            y.role == Role.Leader && y.commitIndex == 1 && y.log == LastLog(command) && y.term == 3
  {
    hide GoodConfig, AllWinsCurrent, AllAcksFresh, HearAppend, Next, Init, NewTable, NothingSentIn;
    ThreePeers(config, a, b, c);
    IsNamed(before, a);
    DistinctPeers(config, a);
    OldSuccessCommits(Last(before).nodes[a], b, answer.call.body, answer.body);
    run := HearBack(before, answer);
    k := |before.steps|;
    assert run.states[k] == Last(before) && run.steps[k] == Step.HearAppendAnswer(answer);
    StaleAckIsNotFresh(run, k);
  }

  /** Everything is in place for the old success to be heard. */
  lemma OldSuccessPending(config: Config, a: NodeId, b: NodeId, c: NodeId, command: Command)
    returns (run: Run, answer: Answer)
    requires Three(config, a, b, c)
    ensures Stage(run, config, 3, a, b, c) && answer in Last(run).answers
    ensures answer.call == Call(b, 0, AppendEntries(a, 1, -1, 0, OldLog(command), -1))
    ensures answer.body == AppendResponse(b, 2, true, 1)
    ensures At(Last(run).nodes[a], a, 3, Role.Leader, LastLog(command)) && NewTable(Last(run).nodes[a], 1)
    ensures At(Last(run).nodes[b], b, 2, Follower, OldLog(command))
    ensures At(Last(run).nodes[c], c, 3, Follower, NewLog(command))
  {
    hide Orderly, At, NewTable, Three, OldLog, NewLog, LastLog;
    var q;
    run, q := OldLeadership(config, a, b, c, command);
    run, answer := OldRequestArrives(run, q, config, a, b, c, command);
    run := NewEntryArrives(run, config, a, b, c, command, answer);
    run := ThirdLeadership(run, config, a, b, c, command, answer);
  }

  /** Without the hypothesis on acknowledgements, quorum-backed commit fails in every cluster of three: a
      leader of term 3 commits position 1 on a success that answers a request of its term 1, although it
      has sent nothing in term 3, nobody has acknowledged anything to it, and neither of the other logs
      begins with its own up to there. Every win of the run is counted in its own term. */
  lemma OldAcknowledgementCommits(config: Config, a: NodeId, b: NodeId, c: NodeId, command: Command)
    returns (run: Run, k: nat)
    requires Three(config, a, b, c)
    ensures run.Valid() && run.config == config && AllWinsCurrent(run) && !AllAcksFresh(run)
    ensures |run.steps| == k + 1 && run.states[k].nodes.Keys == run.states[k + 1].nodes.Keys == config.Keys
    ensures run.states[k].nodes[a].commitIndex == -1
    ensures var y := run.states[k + 1].nodes[a];
            && y.role == Role.Leader && y.commitIndex == 1 && |y.log| == 3
            && (forall p | p in config && p != a :: !Acknowledged(run, k + 1, p, a, y.term, y.log[..2]))
            && (forall p | p in config && p != a :: !(y.log[..2] <= run.states[k + 1].nodes[p].log))
  {
    hide Run.Valid, GoodConfig, AllWinsCurrent, AllAcksFresh, Acknowledged, Init, NewTable, NothingSentIn;
    var answer;
    run, answer := OldSuccessPending(config, a, b, c, command);
    run, k := OldSuccessHeard(run, config, a, b, c, command, answer);
    DifferFromStart(LastLog(command), OldLog(command), 2);
    DifferFromStart(LastLog(command), NewLog(command), 2);
    forall p | p in config && p != a
      ensures !Acknowledged(run, k + 1, p, a, 3, LastLog(command)[..2])
    {
      NobodyAcknowledged(run, p, a, 3, LastLog(command)[..2]);
    }
  }
}
