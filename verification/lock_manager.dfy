/** The lock manager on its consensus node as the object it is. */
module LockManagers {
  import opened CoreTypes
  import opened RaftLog
  import opened RaftSpec
  import opened RaftNodes
  import opened LockTables
  import opened LockSpec
  import opened WaitGraphs

  ghost predicate HoldsExclusive(t: Table, resource: string, owner: string) {
    exists id | id in t :: t[id].resource == resource && t[id].lockType == Exclusive && t[id].owner == owner
  }

  datatype Outcome = Granted | Refused | Waiting

  class DistributedLockManager {
    const raft: RaftNode
    const waitGraph: LockWaitGraph
    var locks: Table
    var lockQueue: Queue
    ghost var waiting: map<string, Request>
    ghost var used: set<string>
    /** How much the node had applied when the manager registered its callback. */
    ghost const missed: nat

    /** The table is the reading of what has been applied since. */
    ghost predicate Valid()
      reads this, raft
    {
      raft.Valid() && missed <= |raft.applied| && locks == TableOf(raft.applied[missed..])
    }

    ghost function Sys(): System
      reads this, raft
    {
      System(raft.State(), locks, lockQueue, waiting, used)
    }

    constructor (raft: RaftNode)
      requires raft.Valid()
      ensures Valid() && this.raft == raft && fresh(waitGraph)
      ensures Sys() == System(raft.State(), map[], map[], map[], {}) && waitGraph.graph == map[]
    {
      this.raft := raft;
      waitGraph := new LockWaitGraph();
      locks, lockQueue, waiting, used := map[], map[], map[], {};
      missed := |raft.applied|;
    }

    method HandleCommit(command: Command)
      modifies this`locks, this`lockQueue
      ensures locks == Committed(old(locks), command)
      ensures lockQueue == QueueCommitted(old(lockQueue), command)
    {
      match command
      case LockAcquire(lockId, resource, owner, lockType, ttl) =>
        locks := locks[lockId := Lock(lockId, resource, owner, lockType, ttl)];
        if resource in lockQueue {
          var kept := [];
          var queue := lockQueue[resource];
          for i := 0 to |queue|
            invariant kept == Without(queue[..i], lockId)
          {
            assert queue[..i + 1][..i] == queue[..i];
            if queue[i].lockId != lockId { kept := kept + [queue[i]]; }
          }
          assert queue[..|queue|] == queue;
          lockQueue := lockQueue[resource := kept];
        }
      case LockRelease(lockId) =>
        if lockId in locks {
          locks := locks - {lockId};
        }
      case _ =>
    }

    method TryAcquire(resource: string, lockType: LockType) returns (can: bool)
      ensures can <==> Grantable(locks, resource, lockType)
      ensures lockType == Exclusive ==> (can <==> forall id | id in locks :: locks[id].resource != resource)
      ensures lockType == Shared ==>
                (can <==> forall id | id in locks && locks[id].resource == resource :: locks[id].lockType != Exclusive)
    {
      var rest := locks.Keys;
      var current: set<string> := {};
      while rest != {}
        invariant rest <= locks.Keys
        invariant current == set id | id in locks && id !in rest && locks[id].resource == resource
        decreases rest
      {
        var id :| id in rest;
        rest := rest - {id};
        if locks[id].resource == resource { current := current + {id}; }
      }
      assert forall id | id in locks && locks[id].resource == resource :: id in current;
      if current == {} { return true; }
      if lockType == Exclusive {
        var id :| id in current;
        return false;
      }
      while current != {}
        invariant current <= locks.Keys && forall id | id in current :: locks[id].resource == resource
        invariant forall id | id in locks && locks[id].resource == resource && id !in current ::
          locks[id].lockType == Shared
        decreases current
      {
        var id :| id in current;
        if locks[id].lockType == Exclusive { return false; }
        current := current - {id};
      }
      return true;
    }

    method GetLockHolder(resource: string) returns (holder: Option<string>)
      ensures holder.None? <==>
                forall id | id in locks && locks[id].resource == resource :: locks[id].lockType == Shared
      ensures holder.Some? ==> HoldsExclusive(locks, resource, holder.value)
    {
      var rest := locks.Keys;
      while rest != {}
        invariant rest <= locks.Keys
        invariant forall id | id in locks && id !in rest && locks[id].resource == resource ::
          locks[id].lockType == Shared
        decreases rest
      {
        var id :| id in rest;
        rest := rest - {id};
        if locks[id].resource == resource && locks[id].lockType == Exclusive {
          return Some(locks[id].owner);
        }
      }
      return None;
    }

    // -------------------------------------------------------------- the node and its callbacks

    /** The callbacks for everything handed over since `seen`. */
    method RunCallbacks(seen: nat)
      requires raft.Valid() && seen <= |raft.applied|
      modifies this`locks, this`lockQueue
      ensures locks == CommitAll(old(locks), raft.applied[seen..])
      ensures lockQueue == QueueAll(old(lockQueue), raft.applied[seen..])
    {
      ghost var handed := raft.applied[seen..];
      for i := seen to |raft.applied|
        invariant CommitAll(locks, raft.applied[i..]) == CommitAll(old(locks), handed)
        invariant QueueAll(lockQueue, raft.applied[i..]) == QueueAll(old(lockQueue), handed)
      {
        assert raft.applied[i..][1..] == raft.applied[i + 1..];
        HandleCommit(raft.applied[i].command);
      }
    }

    /** What the node has just handed over is read like what it had before. */
    lemma CallbacksKeepReading(before: Log, t: Table)
      requires before <= raft.applied && missed <= |before| && t == TableOf(before[missed..])
      ensures CommitAll(t, raft.applied[|before|..]) == TableOf(raft.applied[missed..])
    {
      CommitAllReads(before[missed..], raft.applied[|before|..]);
      assert before[missed..] + raft.applied[|before|..] == raft.applied[missed..];
    }

    /** `append_entry`, with the commit callbacks it runs. */
    method Replicate(command: Command) returns (success: bool)
      requires Valid()
      modifies this`locks, this`lockQueue, raft
      ensures Valid() && success == (old(raft.state) == Role.Leader)
      ensures Sys() == Append(old(Sys()), command)
      ensures raft.log == old(raft.log) + if !success then []
                else [LogEntry(old(raft.currentTerm), |old(raft.log)|, command)]
    {
      hide CommitAll, QueueAll, TableOf, Submit;
      var seen := |raft.applied|;
      success := raft.AppendEntry(command);
      SubmittingExtends(old(raft.State()), command);
      assert old(raft.applied) <= raft.applied;
      RunCallbacks(seen);
      CallbacksKeepReading(old(raft.applied), old(locks));
      NothingHanded(old(locks), old(lockQueue));
      assert !success ==> raft.applied[seen..] == [];
    }

    /** A message from another node is handled, and the callbacks run for what it commits. */
    method Receive(m: Message) returns (answer: Message)
      requires Valid()
      modifies this`locks, this`lockQueue, raft
      ensures Valid() && answer == HandleMessage(old(raft.State()), m).1
      ensures Sys() == Apply(old(Sys()), Step.Receive(m))
    {
      hide CommitAll, QueueAll, TableOf, HandleMessage;
      var seen := |raft.applied|;
      answer := raft.HandleMessage(m);
      HandlingExtends(old(raft.State()), m);
      assert old(raft.applied) <= raft.applied;
      RunCallbacks(seen);
      CallbacksKeepReading(old(raft.applied), old(locks));
    }

    /** The answer to an append request is heard, and the callbacks run for what it commits. */
    method Hear(peer: NodeId, m: Message, answer: Message) returns (replicated: bool)
      requires Valid() && peer in raft.peers && m.AppendEntries?
      modifies this`locks, this`lockQueue, raft
      ensures Valid() && replicated == (answer.AppendResponse? && answer.success)
      ensures Sys() == Apply(old(Sys()), Step.Hear(peer, m, answer))
    {
      hide CommitAll, QueueAll, TableOf, HearAppend;
      var seen := |raft.applied|;
      replicated := raft.HearAppendResponse(peer, m, answer);
      HearingExtends(old(raft.State()), peer, m, answer);
      assert old(raft.applied) <= raft.applied;
      RunCallbacks(seen);
      CallbacksKeepReading(old(raft.applied), old(locks));
    }

    // -------------------------------------------------------------- acquiring and releasing

    method Enqueue(lockId: string, resource: string, lockType: LockType, client: string)
      modifies this`lockQueue
      ensures lockQueue == Enqueued(old(lockQueue), resource, Waiter(client, lockType, lockId))
      ensures resource in lockQueue && lockQueue[resource] != []
      ensures lockQueue[resource][|lockQueue[resource]| - 1] == Waiter(client, lockType, lockId)
    {
      if resource !in lockQueue {
        lockQueue := lockQueue[resource := []];
      }
      lockQueue := lockQueue[resource := lockQueue[resource] + [Waiter(client, lockType, lockId)]];
    }

    /** A waiting client gets an edge to an exclusive owner of the resource, if there is one with a name. */
    method AddWaitEdge(resource: string, client: string)
      modifies waitGraph
      ensures forall a, b | Edge(waitGraph.graph, a, b) ::
                old(Edge(waitGraph.graph, a, b)) || (a == client && HoldsExclusive(locks, resource, b))
      ensures forall a, b | old(Edge(waitGraph.graph, a, b)) :: Edge(waitGraph.graph, a, b)
      ensures (exists id | id in locks :: locks[id].resource == resource && locks[id].lockType == Exclusive)
              && !HoldsExclusive(locks, resource, "") ==>
                exists b :: HoldsExclusive(locks, resource, b) && Edge(waitGraph.graph, client, b)
    {
      var holder := GetLockHolder(resource);
      if holder.Some? && holder.value != "" {
        waitGraph.AddEdge(client, holder.value);
      }
    }

    /** The first attempt of `acquire_lock`: replicate at once or queue up. */
    method AcquireLock(lockId: string, resource: string, lockType: LockType, client: string, ttl: real)
      returns (outcome: Outcome)
      requires Valid() && lockId !in used
      modifies this, raft, waitGraph
      ensures Valid()
      ensures Sys() == Apply(old(Sys()), Acquire(lockId, Request(resource, lockType, client, ttl)))
      ensures outcome == if !old(Grantable(locks, resource, lockType)) then Waiting
                         else if old(raft.state) == Role.Leader then Granted else Refused
      ensures raft.log == old(raft.log) + if outcome != Granted then []
                else [LogEntry(old(raft.currentTerm), |old(raft.log)|,
                               LockAcquire(lockId, resource, client, lockType, ttl))]
      ensures outcome == Waiting ==>
                && resource in lockQueue && lockQueue[resource] != []
                && lockQueue[resource][|lockQueue[resource]| - 1] == Waiter(client, lockType, lockId)
      ensures forall a, b | Edge(waitGraph.graph, a, b) ::
                old(Edge(waitGraph.graph, a, b))
                || (outcome == Waiting && a == client && HoldsExclusive(old(locks), resource, b))
      ensures forall a, b | old(Edge(waitGraph.graph, a, b)) :: Edge(waitGraph.graph, a, b)
      ensures outcome == Waiting && lockType == Shared && !HoldsExclusive(old(locks), resource, "") ==>
                exists b :: HoldsExclusive(old(locks), resource, b) && Edge(waitGraph.graph, client, b)
    {
      hide CommitAll, QueueAll, TableOf, Submit, Enqueued, HoldsExclusive, Edge;
      used := used + {lockId};
      var can := TryAcquire(resource, lockType);
      if can {
        var success := Replicate(LockAcquire(lockId, resource, client, lockType, ttl));
        outcome := if success then Granted else Refused;
      } else {
        Enqueue(lockId, resource, lockType, client);
        waiting := waiting[lockId := Request(resource, lockType, client, ttl)];
        AddWaitEdge(resource, client);
        outcome := Waiting;
      }
    }

    /** One turn of the waiting loop. */
    method RetryAcquire(lockId: string, resource: string, lockType: LockType, client: string, ttl: real)
      returns (granted: bool)
      requires Valid() && lockId in waiting && waiting[lockId] == Request(resource, lockType, client, ttl)
      modifies this, raft, waitGraph
      ensures Valid()
      ensures Sys() == Apply(old(Sys()), Retry(lockId))
      ensures granted <==> old(Grantable(locks, resource, lockType)) && old(raft.state) == Role.Leader
      ensures raft.log == old(raft.log) + if !granted then []
                else [LogEntry(old(raft.currentTerm), |old(raft.log)|,
                               LockAcquire(lockId, resource, client, lockType, ttl))]
      ensures forall a, b :: Edge(waitGraph.graph, a, b) <==>
                old(Edge(waitGraph.graph, a, b)) && (granted ==> a != client && b != client)
    {
      hide CommitAll, QueueAll, TableOf, Submit;
      granted := false;
      var can := TryAcquire(resource, lockType);
      if can {
        granted := Replicate(LockAcquire(lockId, resource, client, lockType, ttl));
        if granted {
          waiting := waiting - {lockId};
          waitGraph.RemoveEdges(client);
        }
      }
    }

    /** A timeout ends the waiting loop and changes nothing else: the client stays queued, and so do
        its edges. */
    ghost method GiveUp(lockId: string)
      requires Valid() && lockId in waiting
      modifies this`waiting
      ensures Valid() && Sys() == Apply(old(Sys()), Step.GiveUp(lockId))
    {
      waiting := waiting - {lockId};
    }

    method ReleaseLock(lockId: string) returns (released: bool)
      requires Valid()
      modifies this`locks, this`lockQueue, raft
      ensures Valid()
      ensures released <==> lockId in old(locks) && old(raft.state) == Role.Leader
      ensures raft.log == old(raft.log) + if !released then []
                else [LogEntry(old(raft.currentTerm), |old(raft.log)|, LockRelease(lockId))]
      ensures Sys() == Apply(old(Sys()), Release(lockId))
    {
      hide CommitAll, QueueAll, TableOf, Submit;
      if lockId !in locks { return false; }
      released := Replicate(LockRelease(lockId));
    }

    /** One turn of the deadlock detector: if somebody waits in a circle, the first client of the walk
        found loses one of its locks, if it has any. */
    method BreakDeadlock() returns (victim: Option<string>, released: Option<string>)
      requires Valid()
      modifies this`locks, this`lockQueue, raft
      ensures Valid()
      ensures victim.None? <==> Acyclic(waitGraph.graph)
      ensures victim.Some? ==> exists walk :: IsLasso(waitGraph.graph, walk) && walk[0] == victim.value
      ensures released.Some? ==>
                victim.Some? && released.value in old(locks) && old(locks)[released.value].owner == victim.value
      ensures Sys() == if released.Some? then Apply(old(Sys()), Release(released.value)) else old(Sys())
      ensures raft.log == old(raft.log) + if released == None then []
                else [LogEntry(old(raft.currentTerm), |old(raft.log)|, LockRelease(released.value))]
      ensures released.None? && victim.Some? && old(raft.state) == Role.Leader ==>
                forall id | id in old(locks) :: old(locks)[id].owner != victim.value
    {
      hide CommitAll, QueueAll, TableOf, Submit;
      victim, released := None, None;
      var walk := waitGraph.DetectCycle();
      if walk.None? { return; }
      victim := Some(walk.value[0]);
      var rest := locks.Keys;
      while rest != {}
        invariant rest <= locks.Keys && Sys() == old(Sys()) && Valid()
        invariant forall id | id in locks && id !in rest :: locks[id].owner != walk.value[0]
        decreases rest
      {
        var id :| id in rest;
        rest := rest - {id};
        if locks[id].owner == walk.value[0] {
          var success := ReleaseLock(id);
          if success { released := Some(id); }
          return;
        }
      }
    }
  }

  lemma NothingHanded(t: Table, q: Queue)
    ensures CommitAll(t, []) == t && QueueAll(q, []) == q
  {
  }
}
