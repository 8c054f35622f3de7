/** Lock compatibility when the node has no peers, so that an entry is committed inside the call
    that submits it, over all interleavings of clients. */
module LocksAlone {
  import opened CoreTypes
  import opened RaftSpec
  import opened LockTables
  import opened LockSpec

  /** Without peers nobody sends messages or answers, and no peer grants a vote. */
  predicate Alone(step: Step) {
    !step.Receive? && !step.Hear? && !step.HearVoteAnswer? && (step.FinishElection? ==> step.granted == 0)
  }

  predicate RunsAlone(id: NodeId, states: seq<System>, steps: seq<Step>) {
    ValidRun(Start(id, []), states, steps) && forall i | 0 <= i < |steps| :: Alone(steps[i])
  }

  // ---------------------------------------------------------------- a node without peers

  /** Everything in the log is committed and applied. */
  predicate AllApplied(x: Node) {
    x.peers == [] && x.applied == x.log && x.commitIndex == x.lastApplied == |x.log| - 1
  }

  lemma SubmitAppliesAtOnce(x: Node, c: Command)
    requires AllApplied(x)
    ensures var y := Submit(x, c);
            AllApplied(y) && Handed(x, y) == [LogEntry(x.term, |x.log|, c)] && y.applied == x.applied + Handed(x, y)
  {
  }

  /** The table is the reading of the applied log, locks are compatible, and no lock is held under
      an id still waiting or never drawn. */
  predicate Inv(s: System) {
    && AllApplied(s.node)
    && s.table == TableOf(s.node.applied)
    && Compatible(s.table)
    && (forall id | id in s.table :: id in s.used && id !in s.waiting && s.table[id].lockId == id)
    && (forall id | id in s.waiting :: id in s.used)
  }

  lemma AppendCommits(s: System, c: Command)
    requires AllApplied(s.node) && s.table == TableOf(s.node.applied) && s.node.role == Role.Leader
    ensures var t := Append(s, c);
            && AllApplied(t.node) && t.table == TableOf(t.node.applied)
            && t == s.(node := t.node, table := Committed(s.table, c), queue := QueueCommitted(s.queue, c))
  {
    hide Submit, CommitAll, QueueAll, Handed, Committed, QueueCommitted;
    SubmitAppliesAtOnce(s.node, c);
    var y := Submit(s.node, c);
    var e := LogEntry(s.node.term, |s.node.log|, c);
    OneCallback(s.table, s.queue, e);
    assert y.applied == s.node.applied + [e] && y.applied[..|y.applied| - 1] == s.node.applied;
  }

  lemma OneCallback(t: Table, q: Queue, e: LogEntry)
    ensures CommitAll(t, [e]) == Committed(t, e.command) && QueueAll(q, [e]) == QueueCommitted(q, e.command)
  {
    assert [e][1..] == [];
  }

  lemma GrantKeepsCompatible(t: Table, id: string, r: Request)
    requires Compatible(t) && Grantable(t, r.resource, r.lockType) && id !in t
    ensures Compatible(Committed(t, Entry(id, r)))
  {
  }

  lemma StepKeepsInv(s: System, step: Step)
    requires Inv(s) && Enabled(s, step) && Alone(step)
    ensures Inv(Apply(s, step))
  {
    hide AllApplied, Submit, CommitAll, QueueAll, TableOf, Handed;
    match step
    case Stand => SameLog(s.node, Apply(s, step).node);
    case FinishElection(_) => SameLog(s.node, Apply(s, step).node);
    case Acquire(id, r) =>
      if Grantable(s.table, r.resource, r.lockType) && s.node.role == Role.Leader {
        AppendCommits(s.(used := s.used + {id}), Entry(id, r));
        GrantKeepsCompatible(s.table, id, r);
      }
    case Retry(id) =>
      var r := s.waiting[id];
      if Grantable(s.table, r.resource, r.lockType) && s.node.role == Role.Leader {
        AppendCommits(s.(waiting := s.waiting - {id}), Entry(id, r));
        GrantKeepsCompatible(s.table, id, r);
      }
    case GiveUp(_) =>
    case Release(id) =>
      if id in s.table && s.node.role == Role.Leader { AppendCommits(s, LockRelease(id)); }
    case OtherEntry(c) =>
      if s.node.role == Role.Leader { AppendCommits(s, c); }
    case Receive(_) =>
    case Hear(_, _, _) =>
    case HearVoteAnswer(_) =>
  }

  lemma SameLog(x: Node, y: Node)
    requires AllApplied(x) && y.peers == x.peers && y.log == x.log && y.applied == x.applied
    requires y.commitIndex == x.commitIndex && y.lastApplied == x.lastApplied
    ensures AllApplied(y)
  {
  }

  /** Whoever is queued has drawn an id that is not held, and waits, if still waiting, for that resource. */
  predicate QueueInv(s: System) {
    forall r, w | r in s.queue && w in s.queue[r] ::
      && w.lockId in s.used && w.lockId !in s.table
      && (w.lockId in s.waiting ==> s.waiting[w.lockId].resource == r)
  }

  lemma StepKeepsQueue(s: System, step: Step)
    requires Inv(s) && QueueInv(s) && Enabled(s, step) && Alone(step)
    ensures QueueInv(Apply(s, step))
  {
    hide AllApplied, Compatible, Append, TableOf, Without;
    match step
    case Stand =>
    case FinishElection(_) =>
    case Acquire(id, r) =>
      if s.node.role == Role.Leader { AppendCommits(s.(used := s.used + {id}), Entry(id, r)); }
      NotLeading(s.(used := s.used + {id}), Entry(id, r));
    case Retry(id) =>
      if s.node.role == Role.Leader { AppendCommits(s.(waiting := s.waiting - {id}), Entry(id, s.waiting[id])); }
    case GiveUp(_) =>
    case Release(id) =>
      if s.node.role == Role.Leader { AppendCommits(s, LockRelease(id)); }
      NotLeading(s, LockRelease(id));
    case OtherEntry(c) =>
      if s.node.role == Role.Leader { AppendCommits(s, c); }
      NotLeading(s, c);
    case Receive(_) =>
    case Hear(_, _, _) =>
    case HearVoteAnswer(_) =>
  }

  lemma NotLeading(s: System, c: Command)
    ensures s.node.role != Role.Leader ==> Append(s, c) == s
  {
  }

  lemma {:induction false} RunKeepsInv(id: NodeId, states: seq<System>, steps: seq<Step>, k: nat)
    requires RunsAlone(id, states, steps) && k < |states|
    ensures Inv(states[k]) && QueueInv(states[k])
  {
    hide Apply, Enabled, Inv, QueueInv, Alone;
    if k == 0 {
      AtStart(id);
    } else {
      RunKeepsInv(id, states, steps, k - 1);
      StepKeepsInv(states[k - 1], steps[k - 1]);
      StepKeepsQueue(states[k - 1], steps[k - 1]);
    }
  }

  lemma AtStart(id: NodeId)
    ensures Inv(Start(id, [])) && QueueInv(Start(id, []))
  {
  }

  /** Lock compatibility: in every state of every run, each resource has at most one lock or only
      shared ones, the table is the reading of the applied log, and nobody queued holds its lock. */
  lemma LocksAreCompatible(id: NodeId, states: seq<System>, steps: seq<Step>, k: nat)
    requires RunsAlone(id, states, steps) && k < |states|
    ensures Compatible(states[k].table)
    ensures states[k].table == TableOf(states[k].node.applied)
    ensures forall r, w | r in states[k].queue && w in states[k].queue[r] :: w.lockId !in states[k].table
  {
    RunKeepsInv(id, states, steps, k);
  }
}
