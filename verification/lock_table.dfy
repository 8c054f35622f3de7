/** The lock table as a function of the applied log, and the waiting queue beside it. */
module LockTables {
  import opened CoreTypes

  /** A held lock, without the local time of its acquisition. */
  datatype Lock = Lock(lockId: string, resource: string, owner: string, lockType: LockType, ttl: real)

  type Table = map<string, Lock>

  /** A client waiting for a resource. */
  datatype Waiter = Waiter(client: string, lockType: LockType, lockId: string)

  type Queue = map<string, seq<Waiter>>

  function LockOf(c: Command): Lock
    requires c.LockAcquire?
  {
    Lock(c.lockId, c.resource, c.owner, c.lockType, c.ttl)
  }

  /** The table after one committed entry. */
  function Committed(t: Table, c: Command): Table {
    match c
    case LockAcquire(id, _, _, _, _) => t[id := LockOf(c)]
    case LockRelease(id) => t - {id}
    case _ => t
  }

  /** The table after a sequence of committed entries. */
  function TableOf(applied: seq<LogEntry>): Table {
    if applied == [] then map[]
    else Committed(TableOf(applied[..|applied| - 1]), applied[|applied| - 1].command)
  }

  function Without(q: seq<Waiter>, id: string): (r: seq<Waiter>)
    ensures forall w :: w in r <==> w in q && w.lockId != id
  {
    if q == [] then []
    else
      var rest := Without(q[..|q| - 1], id);
      var last := q[|q| - 1];
      assert q == q[..|q| - 1] + [last];
      if last.lockId != id then rest + [last] else rest
  }

  function QueueCommitted(q: Queue, c: Command): Queue {
    if c.LockAcquire? && c.resource in q then q[c.resource := Without(q[c.resource], c.lockId)] else q
  }

  function Enqueued(q: Queue, resource: string, w: Waiter): Queue {
    q[resource := (if resource in q then q[resource] else []) + [w]]
  }

  /** May a lock of this type be taken now? Nothing is held on the resource, or everything held on
      it is shared and so is the request. */
  predicate Grantable(t: Table, resource: string, lockType: LockType) {
    forall id | id in t && t[id].resource == resource :: lockType == Shared && t[id].lockType == Shared
  }

  /** For each resource at most one lock, or only shared ones. */
  predicate Compatible(t: Table) {
    forall a, b | a in t && b in t && a != b && t[a].resource == t[b].resource ::
      t[a].lockType == Shared && t[b].lockType == Shared
  }

  /** What may be taken: an exclusive lock exactly if nothing is held on the resource, whatever is held on
      others; a shared one exactly if nothing exclusive is held on it. */
  lemma GrantableMeans(t: Table, resource: string)
    ensures Grantable(t, resource, Exclusive) <==> resource !in (set id | id in t :: t[id].resource)
    ensures Grantable(t, resource, Shared) <==>
              resource !in (set id | id in t && t[id].lockType == Exclusive :: t[id].resource)
  {
  }

  // ---------------------------------------------------------------- the waiting queue after a commit

  /** Only the waiters with the id go; the others keep their order, and as often as they were there. */
  lemma {:induction false} WithoutKeepsOrder(a: seq<Waiter>, b: seq<Waiter>, id: string)
    ensures Without(a + b, id) == Without(a, id) + Without(b, id)
  {
    if b == [] {
      assert a + b == a;
    } else {
      var k := |b| - 1;
      assert (a + b)[..|a + b| - 1] == a + b[..k];
      WithoutKeepsOrder(a, b[..k], id);
    }
  }

  lemma WithoutOne(w: Waiter, id: string)
    ensures Without([w], id) == if w.lockId == id then [] else [w]
  {
    assert [w][..0] == [];
  }

  /** Only an acquire touches the queue, and only that of its resource. */
  lemma CommitTouchesOneQueue(q: Queue, c: Command)
    ensures QueueCommitted(q, c).Keys == q.Keys
    ensures forall r | r in q ::
              QueueCommitted(q, c)[r] == if c.LockAcquire? && c.resource == r then Without(q[r], c.lockId) else q[r]
  {
  }

  // ---------------------------------------------------------------- reading the log

  predicate IsAbout(c: Command, id: string) {
    (c.LockAcquire? && c.lockId == id) || (c.LockRelease? && c.released == id)
  }

  /** Entry `i` is the last one about the lock. */
  predicate LastAbout(applied: seq<LogEntry>, id: string, i: nat) {
    i < |applied| && IsAbout(applied[i].command, id) &&
    forall j | i < j < |applied| :: !IsAbout(applied[j].command, id)
  }

  /** A lock is held exactly when the last applied entry about its id is an acquire, and then it is
      the lock of that entry. */
  lemma {:induction false} TableReadsTheLog(applied: seq<LogEntry>, id: string)
    ensures id in TableOf(applied) <==> exists i: nat :: LastAbout(applied, id, i) && applied[i].command.LockAcquire?
    ensures forall i: nat | LastAbout(applied, id, i) && applied[i].command.LockAcquire? ::
              var c := applied[i].command;
              id in TableOf(applied) && TableOf(applied)[id] == Lock(id, c.resource, c.owner, c.lockType, c.ttl)
  {
    if applied != [] {
      var n := |applied| - 1;
      var before := applied[..n];
      TableReadsTheLog(before, id);
      if IsAbout(applied[n].command, id) {
        assert LastAbout(applied, id, n);
        assert forall i: nat | LastAbout(applied, id, i) :: i == n;
      } else {
        forall i: nat
          ensures LastAbout(applied, id, i) <==> LastAbout(before, id, i)
        {
          if LastAbout(before, id, i) { assert applied[i] == before[i]; }
          if LastAbout(applied, id, i) { assert applied[i] == before[i]; }
        }
      }
    }
  }

  /** What a replica's table holds for an id depends on nothing but the last entry about it, so
      entries about other locks and other services may be left out. */
  lemma {:induction false} TableIgnoresOtherEntries(a: seq<LogEntry>, b: seq<LogEntry>, id: string)
    requires forall e | e in b :: !IsAbout(e.command, id)
    ensures id in TableOf(a + b) <==> id in TableOf(a)
    ensures id in TableOf(a) ==> TableOf(a + b)[id] == TableOf(a)[id]
  {
    if b == [] {
      assert a + b == a;
    } else {
      var n := |b| - 1;
      assert (a + b)[..|a + b| - 1] == a + b[..n];
      assert b[n] in b;
      TableIgnoresOtherEntries(a, b[..n], id);
    }
  }

  // ---------------------------------------------------------------- the queue

  /** What happens at one manager: a client starts waiting, or an entry is committed. */
  datatype Event = Wait(resource: string, waiter: Waiter) | Commit(command: Command)

  datatype View = View(table: Table, queue: Queue)

  function After(events: seq<Event>): View {
    if events == [] then View(map[], map[])
    else
      var v := After(events[..|events| - 1]);
      match events[|events| - 1]
      case Wait(r, w) => v.(queue := Enqueued(v.queue, r, w))
      case Commit(c) => View(Committed(v.table, c), QueueCommitted(v.queue, c))
  }

  /** An id is drawn by one `acquire_lock` call, which queues it, if at all, before it submits an
      acquire for it, and submits it for the resource it queued it for. */
  predicate Orderly(events: seq<Event>) {
    forall i, j | 0 <= i < |events| && 0 <= j < |events| && events[i].Wait?
                  && events[j].Commit? && events[j].command.LockAcquire?
                  && events[j].command.lockId == events[i].waiter.lockId ::
      i < j && events[j].command.resource == events[i].resource
  }

  predicate Queues(q: Queue, resource: string, w: Waiter) {
    resource in q && w in q[resource]
  }

  lemma OrderlyBefore(events: seq<Event>, n: nat)
    requires Orderly(events) && n <= |events|
    ensures Orderly(events[..n])
  {
  }

  /** Whoever is queued has started waiting on that resource. */
  lemma {:induction false} QueuedHasWaited(events: seq<Event>, resource: string, w: Waiter) returns (i: nat)
    requires Queues(After(events).queue, resource, w)
    ensures i < |events| && events[i] == Wait(resource, w)
  {
    var n := |events| - 1;
    if events[n] == Wait(resource, w) {
      i := n;
    } else {
      i := QueuedHasWaited(events[..n], resource, w);
    }
  }

  /** A held lock has been committed as acquired. */
  lemma {:induction false} HeldHasCommitted(events: seq<Event>, id: string) returns (j: nat)
    requires id in After(events).table
    ensures j < |events| && events[j].Commit? && events[j].command.LockAcquire? && events[j].command.lockId == id
  {
    var n := |events| - 1;
    if events[n].Commit? && events[n].command.LockAcquire? && events[n].command.lockId == id {
      j := n;
    } else {
      j := HeldHasCommitted(events[..n], id);
    }
  }

  /** No held lock is still in the waiting queue, in any cluster and whatever else happens. */
  lemma {:induction false} NoHeldLockIsQueued(events: seq<Event>, resource: string, w: Waiter)
    requires Orderly(events) && Queues(After(events).queue, resource, w)
    ensures w.lockId !in After(events).table
  {
    if events != [] {
      var n := |events| - 1;
      var before := events[..n];
      OrderlyBefore(events, n);
      var i := QueuedHasWaited(events, resource, w);
      if w.lockId in After(events).table {
        if events[n].Wait? && !Queues(After(before).queue, resource, w) {
          var j := HeldHasCommitted(before, w.lockId);
        } else {
          NoHeldLockIsQueued(before, resource, w);
        }
      }
    }
  }
}
