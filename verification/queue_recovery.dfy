/** The durable copy of the queue: scheduled writes that take effect later, in order, and what a
    fresh node rebuilds from it. */
module QueueRecovery {
  import opened QueueSpec

  type Partitions = map<nat, Partition>

  /** A scheduled write. The record is made from the message when the write takes effect. */
  datatype Task = Persist(id: string) | Delete(id: string)

  /** `used` holds every id ever published or acknowledged. */
  datatype System = System(parts: Partitions, tasks: seq<Task>, store: map<string, Msg>, used: set<string>)

  datatype Step =
    | CommitPublish(message: Msg)
    | CommitAck(id: string)
    | Serve(partition: nat, batch: nat)
    | Work(current: Msg)

  function At(parts: Partitions, p: nat): Partition {
    if p in parts then parts[p] else []
  }

  predicate Holds(parts: Partitions, m: Msg) {
    m in At(parts, m.partition)
  }

  function PersistAll(ms: seq<Msg>): (r: seq<Task>)
    ensures |r| == |ms| && forall i | 0 <= i < |ms| :: r[i] == Persist(ms[i].id)
  {
    seq(|ms|, i requires 0 <= i < |ms| => Persist(ms[i].id))
  }

  function AckedEverywhere(parts: Partitions, id: string): Partitions {
    map p | p in parts :: Acked(parts[p], id)
  }

  function Published(parts: Partitions, m: Msg): Partitions {
    parts[m.partition := At(parts, m.partition) + [m]]
  }

  function ConsumedAt(parts: Partitions, p: nat, batch: nat): Partitions {
    if p in parts then parts[p := Consumed(parts[p], batch)] else parts
  }

  predicate Enabled(s: System, step: Step) {
    match step
    case CommitPublish(m) => m.id !in s.used && !m.acked && m.deliveries == 0
    case Work(m) => s.tasks != [] && (s.tasks[0].Persist? ==> Holds(s.parts, m) && m.id == s.tasks[0].id)
    case _ => true
  }

  function Apply(s: System, step: Step): System
    requires Enabled(s, step)
  {
    match step
    case CommitPublish(m) =>
      s.(parts := Published(s.parts, m), tasks := s.tasks + [Persist(m.id)], used := s.used + {m.id})
    case CommitAck(id) =>
      s.(parts := AckedEverywhere(s.parts, id), tasks := s.tasks + [Delete(id)], used := s.used + {id})
    case Serve(p, batch) =>
      s.(parts := ConsumedAt(s.parts, p, batch),
         tasks := s.tasks + PersistAll(Batch(At(s.parts, p), |At(s.parts, p)|, batch)))
    case Work(m) =>
      s.(tasks := s.tasks[1..],
         store := if s.tasks[0].Persist? then s.store[m.id := m] else s.store - {s.tasks[0].id})
  }

  // ---------------------------------------------------------------- invariant

  /** Will the store have a record for the id once all tasks are done, if it has one now or not? */
  predicate WillHold(tasks: seq<Task>, id: string, now: bool) {
    if tasks == [] then now
    else
      var last := tasks[|tasks| - 1];
      if last.id == id then last.Persist? else WillHold(tasks[..|tasks| - 1], id, now)
  }

  lemma {:induction false} WillHoldFirst(tasks: seq<Task>, id: string, now: bool)
    requires tasks != []
    ensures WillHold(tasks, id, now)
            <==> WillHold(tasks[1..], id, if tasks[0].id == id then tasks[0].Persist? else now)
  {
    var n := |tasks| - 1;
    if n > 0 {
      WillHoldFirst(tasks[..n], id, now);
      assert tasks[..n][1..] == tasks[1..][..n - 1];
    }
  }

  lemma WillHoldSnoc(tasks: seq<Task>, t: Task, id: string, now: bool)
    ensures WillHold(tasks + [t], id, now) <==> if t.id == id then t.Persist? else WillHold(tasks, id, now)
  {
  }

  lemma {:induction false} WillHoldOthers(tasks: seq<Task>, more: seq<Task>, id: string, now: bool)
    requires forall t | t in more :: t.id != id
    ensures WillHold(tasks + more, id, now) <==> WillHold(tasks, id, now)
  {
    if more == [] {
      assert tasks + more == tasks;
    } else {
      var n := |more| - 1;
      assert tasks + more == (tasks + more[..n]) + [more[n]];
      WillHoldSnoc(tasks + more[..n], more[n], id, now);
      WillHoldOthers(tasks, more[..n], id, now);
    }
  }

  /** Ids identify messages, and messages are where they say they are. */
  predicate IdsUnique(parts: Partitions) {
    && (forall p, i | p in parts && 0 <= i < |parts[p]| :: parts[p][i].partition == p)
    && (forall p, i, q, j | p in parts && 0 <= i < |parts[p]| && q in parts && 0 <= j < |parts[q]|
                            && parts[p][i].id == parts[q][j].id :: p == q && i == j)
  }

  /** An unacknowledged message is in the store as it is, or about to be; an acknowledged one is
      gone from it, or about to be. */
  predicate Tracked(s: System, m: Msg) {
    && m.id in s.used
    && (if m.acked then !WillHold(s.tasks, m.id, m.id in s.store)
        else Delete(m.id) !in s.tasks && (Persist(m.id) in s.tasks || (m.id in s.store && s.store[m.id] == m)))
  }

  predicate Known(s: System, id: string) {
    exists p, i | p in s.parts && 0 <= i < |s.parts[p]| :: s.parts[p][i].id == id
  }

  predicate Inv(s: System) {
    && IdsUnique(s.parts)
    && (forall p, i | p in s.parts && 0 <= i < |s.parts[p]| :: Tracked(s, s.parts[p][i]))
    && (forall id | id in s.store :: Known(s, id))
    && (forall t | t in s.tasks && t.Persist? :: Known(s, t.id))
    && (forall t | t in s.tasks :: t.id in s.used)
  }

  lemma KnownIsUsed(s: System, id: string)
    requires Inv(s) && Known(s, id)
    ensures id in s.used
  {
  }

  lemma PublishKeepsInv(s: System, m: Msg)
    requires Inv(s) && Enabled(s, CommitPublish(m))
    ensures Inv(Apply(s, CommitPublish(m)))
  {
    var t := Apply(s, CommitPublish(m));
    var before := At(s.parts, m.partition);
    assert m.id !in s.store by { if m.id in s.store { KnownIsUsed(s, m.id); } }
    forall p, i | p in t.parts && 0 <= i < |t.parts[p]|
      ensures t.parts[p][i].partition == p
      ensures if p == m.partition && i == |before| then t.parts[p][i] == m
              else p in s.parts && i < |s.parts[p]| && t.parts[p][i] == s.parts[p][i] && t.parts[p][i].id in s.used
    {
      if p != m.partition || i < |before| { assert Tracked(s, s.parts[p][i]); }
    }
    forall p, i | p in t.parts && 0 <= i < |t.parts[p]|
      ensures Tracked(t, t.parts[p][i])
    {
      var x := t.parts[p][i];
      if x.id != m.id { WillHoldSnoc(s.tasks, Persist(m.id), x.id, x.id in s.store); }
    }
    PublishKnown(s, m);
  }

  lemma PublishKnown(s: System, m: Msg)
    requires Enabled(s, CommitPublish(m))
    ensures forall id | Known(s, id) :: Known(Apply(s, CommitPublish(m)), id)
    ensures Known(Apply(s, CommitPublish(m)), m.id)
  {
    var t := Apply(s, CommitPublish(m));
    forall id | Known(s, id)
      ensures Known(t, id)
    {
      var p, i :| p in s.parts && 0 <= i < |s.parts[p]| && s.parts[p][i].id == id;
      assert t.parts[p][i].id == id;
    }
    var n := |At(s.parts, m.partition)|;
    assert t.parts[m.partition][n].id == m.id;
  }

  /** Same messages at the same places, as far as ids go. */
  predicate SamePlaces(parts: Partitions, parts': Partitions) {
    && parts'.Keys == parts.Keys
    && (forall p | p in parts :: |parts'[p]| == |parts[p]|)
    && (forall p, i | p in parts && 0 <= i < |parts[p]| ::
          parts'[p][i].id == parts[p][i].id && parts'[p][i].partition == parts[p][i].partition)
  }

  lemma SamePlacesKnown(s: System, t: System)
    requires SamePlaces(s.parts, t.parts)
    ensures IdsUnique(s.parts) ==> IdsUnique(t.parts)
    ensures forall id | Known(s, id) :: Known(t, id)
  {
  }

  lemma AckKeepsInv(s: System, id: string)
    requires Inv(s)
    ensures Inv(Apply(s, CommitAck(id)))
  {
    hide IdsUnique;
    var t := Apply(s, CommitAck(id));
    assert SamePlaces(s.parts, t.parts);
    SamePlacesKnown(s, t);
    forall p, i | p in t.parts && 0 <= i < |t.parts[p]|
      ensures Tracked(t, t.parts[p][i])
    {
      var x := s.parts[p][i];
      assert Tracked(s, x);
      WillHoldSnoc(s.tasks, Delete(id), x.id, x.id in s.store);
    }
  }

  lemma ConsumeKeepsInv(s: System, p: nat, batch: nat)
    requires Inv(s)
    ensures Inv(Apply(s, Serve(p, batch)))
  {
    var t := Apply(s, Serve(p, batch));
    assert SamePlaces(s.parts, t.parts);
    SamePlacesKnown(s, t);
    var here := At(s.parts, p);
    var taken := Batch(here, |here|, batch);
    var more := PersistAll(taken);
    BatchesAreUnacked(s, p, batch);
    forall q, i | q in t.parts && 0 <= i < |t.parts[q]|
      ensures Tracked(t, t.parts[q][i])
    {
      var x := s.parts[q][i];
      assert Tracked(s, x);
      if x.acked {
        assert forall u | u in more :: u.id != x.id;
        WillHoldOthers(s.tasks, more, x.id, x.id in s.store);
      } else if q == p && Taken(here, i, batch) {
        BatchHoldsTaken(here, |here|, batch, i);
        assert Persist(x.id) in more;
      }
    }
  }

  /** What is written for a batch is written for known, unacknowledged messages only. */
  lemma BatchesAreUnacked(s: System, p: nat, batch: nat)
    requires Inv(s)
    ensures var more := PersistAll(Batch(At(s.parts, p), |At(s.parts, p)|, batch));
            forall u | u in more ::
              && u.Persist? && u.id in s.used && Known(s, u.id)
              && forall q, i | q in s.parts && 0 <= i < |s.parts[q]| && s.parts[q][i].acked :: s.parts[q][i].id != u.id
  {
    var here := At(s.parts, p);
    var taken := Batch(here, |here|, batch);
    forall u | u in PersistAll(taken)
      ensures u.Persist? && u.id in s.used && Known(s, u.id)
      ensures forall q, i | q in s.parts && 0 <= i < |s.parts[q]| && s.parts[q][i].acked :: s.parts[q][i].id != u.id
    {
      var m :| m in taken && m.id == u.id;
      var j := BatchIsTaken(here, |here|, batch, m);
      assert s.parts[p][j].id == u.id && !s.parts[p][j].acked;
      KnownIsUsed(s, u.id);
    }
  }

  lemma WorkKeepsInv(s: System, m: Msg)
    requires Inv(s) && Enabled(s, Work(m))
    ensures Inv(Apply(s, Work(m)))
  {
    var t := Apply(s, Work(m));
    var head := s.tasks[0];
    assert s.tasks == [head] + t.tasks;
    assert forall id :: Known(s, id) ==> Known(t, id);
    assert head in s.tasks;
    forall p, i | p in t.parts && 0 <= i < |t.parts[p]|
      ensures Tracked(t, t.parts[p][i])
    {
      var x := s.parts[p][i];
      assert Tracked(s, x);
      WillHoldFirst(s.tasks, x.id, x.id in s.store);
      if head == Persist(x.id) { SameMessage(s, m, p, i); }
    }
  }

  lemma SameMessage(s: System, m: Msg, p: nat, i: nat)
    requires IdsUnique(s.parts) && Holds(s.parts, m) && p in s.parts && i < |s.parts[p]| && s.parts[p][i].id == m.id
    ensures s.parts[p][i] == m
  {
  }

  lemma StepKeepsInv(s: System, step: Step)
    requires Inv(s) && Enabled(s, step)
    ensures Inv(Apply(s, step))
  {
    hide Inv, Apply, Enabled;
    match step
    case CommitPublish(m) => PublishKeepsInv(s, m);
    case CommitAck(id) => AckKeepsInv(s, id);
    case Serve(p, batch) => ConsumeKeepsInv(s, p, batch);
    case Work(m) => WorkKeepsInv(s, m);
  }

  predicate ValidRun(states: seq<System>, steps: seq<Step>) {
    && |states| == |steps| + 1 && states[0] == System(map[], [], map[], {})
    && forall i | 0 <= i < |steps| :: Enabled(states[i], steps[i]) && states[i + 1] == Apply(states[i], steps[i])
  }

  lemma {:induction false} RunKeepsInv(states: seq<System>, steps: seq<Step>, k: nat)
    requires ValidRun(states, steps) && k < |states|
    ensures Inv(states[k])
  {
    if k > 0 {
      RunKeepsInv(states, steps, k - 1);
      StepKeepsInv(states[k - 1], steps[k - 1]);
    }
  }

  /** With no write outstanding, the store holds exactly the unacknowledged messages, as they are. */
  lemma StoreIsExact(s: System, m: Msg)
    requires Inv(s) && s.tasks == []
    ensures m.id in s.store && s.store[m.id] == m <==> Holds(s.parts, m) && !m.acked
    ensures m.id in s.store ==> Holds(s.parts, s.store[m.id]) && !s.store[m.id].acked && s.store[m.id].id == m.id
  {
  }

  // ---------------------------------------------------------------- loading

  predicate HasId(s: Partition, id: string) {
    exists i | 0 <= i < |s| :: s[i].id == id
  }

  /** Loading one record: acknowledged ones are skipped, and so are ids that are already there. */
  function LoadOne(parts: Partitions, raw: Msg): Partitions {
    if raw.acked then parts
    else if HasId(At(parts, raw.partition), raw.id) then parts[raw.partition := At(parts, raw.partition)]
    else Published(parts, raw)
  }

  /** Loading the records in the order the store lists them. */
  function LoadAll(parts: Partitions, raws: seq<Msg>): Partitions
    decreases |raws|
  {
    if raws == [] then parts else LoadAll(LoadOne(parts, raws[0]), raws[1..])
  }

  /** Records are loaded one after the other, in the order they are listed. */
  lemma {:induction false} LoadingInOrder(parts: Partitions, raws: seq<Msg>, raw: Msg)
    ensures LoadAll(parts, raws + [raw]) == LoadOne(LoadAll(parts, raws), raw)
    decreases |raws|
  {
    if raws == [] {
      assert [] + [raw] == [raw] && [raw][1..] == [];
    } else {
      assert (raws + [raw])[1..] == raws[1..] + [raw];
      LoadingInOrder(LoadOne(parts, raws[0]), raws[1..], raw);
    }
  }

  /** The records of a store, each once, in any order. */
  ghost predicate Lists(raws: seq<Msg>, store: map<string, Msg>) {
    && (forall m :: m in raws <==> m.id in store && store[m.id] == m)
    && (forall i, j | 0 <= i < j < |raws| :: raws[i] != raws[j])
  }

  predicate DistinctIds(raws: seq<Msg>) {
    forall i, j | 0 <= i < j < |raws| :: raws[i].id != raws[j].id
  }

  /** Whatever the records, loading adds nothing that is not an unacknowledged record, and takes nothing
      away. */
  lemma {:induction false} LoadingAddsOnlyUnacked(parts: Partitions, raws: seq<Msg>, m: Msg)
    ensures Holds(LoadAll(parts, raws), m) ==> Holds(parts, m) || (m in raws && !m.acked)
    ensures Holds(parts, m) ==> Holds(LoadAll(parts, raws), m)
    decreases |raws|
  {
    hide LoadOne, Holds;
    if raws != [] {
      assert raws == [raws[0]] + raws[1..];
      LoadingOne(parts, raws[0], m);
      LoadingAddsOnlyUnacked(LoadOne(parts, raws[0]), raws[1..], m);
    }
  }

  /** Loading one record adds the record if it is unacknowledged and its id is new to its partition, and
      nothing otherwise. */
  lemma LoadingOne(parts: Partitions, raw: Msg, m: Msg)
    ensures Holds(LoadOne(parts, raw), m) <==>
            || Holds(parts, m)
            || (m == raw && !raw.acked && forall x | x in At(parts, raw.partition) :: x.id != raw.id)
  {
    if HasId(At(parts, raw.partition), raw.id) {
      var i :| 0 <= i < |At(parts, raw.partition)| && At(parts, raw.partition)[i].id == raw.id;
      assert At(parts, raw.partition)[i] in At(parts, raw.partition);
    }
    assert At(Published(parts, raw), raw.partition) == At(parts, raw.partition) + [raw];
  }

  /** No record has the id of a message that is already there. */
  predicate Fresh(parts: Partitions, raws: seq<Msg>) {
    forall p, i, j | p in parts && 0 <= i < |parts[p]| && 0 <= j < |raws| :: parts[p][i].id != raws[j].id
  }

  lemma StillFresh(parts: Partitions, raws: seq<Msg>)
    requires raws != [] && Fresh(parts, raws) && DistinctIds(raws)
    ensures LoadOne(parts, raws[0]) == if raws[0].acked then parts else Published(parts, raws[0])
    ensures Fresh(LoadOne(parts, raws[0]), raws[1..]) && DistinctIds(raws[1..])
  {
    var raw, rest := raws[0], raws[1..];
    var next: Partitions := Published(parts, raw);
    assert !HasId(At(parts, raw.partition), raw.id);
    forall p, i, j | p in next && 0 <= i < |next[p]| && 0 <= j < |rest|
      ensures next[p][i].id != rest[j].id
    {
      assert rest[j] == raws[j + 1];
      if p != raw.partition || i < |At(parts, p)| { assert next[p][i] == parts[p][i]; }
    }
    assert forall j | 0 <= j < |rest| :: rest[j] == raws[j + 1];
  }

  /** Loading fresh records adds each of the unacknowledged ones once and nothing else. */
  lemma {:induction false} LoadingAddsEachOnce(parts: Partitions, raws: seq<Msg>)
    requires IdsUnique(parts) && DistinctIds(raws) && Fresh(parts, raws)
    ensures IdsUnique(LoadAll(parts, raws))
    ensures forall m :: Holds(LoadAll(parts, raws), m) <==> Holds(parts, m) || (m in raws && !m.acked)
    decreases |raws|
  {
    hide IdsUnique, Holds, DistinctIds, LoadOne, Published;
    if raws != [] {
      StillFresh(parts, raws);
      if !raws[0].acked { PublishedIds(parts, raws[0]); }
      assert raws == [raws[0]] + raws[1..];
      LoadingAddsEachOnce(LoadOne(parts, raws[0]), raws[1..]);
    }
  }

  lemma PublishedIds(parts: Partitions, m: Msg)
    requires IdsUnique(parts)
    requires forall p, i | p in parts && 0 <= i < |parts[p]| :: parts[p][i].id != m.id
    ensures IdsUnique(Published(parts, m))
    ensures forall x :: Holds(Published(parts, m), x) <==> Holds(parts, x) || x == m
  {
  }

  lemma {:induction false} LoadingAgainAddsNothing(parts: Partitions, raws: seq<Msg>)
    requires forall i | 0 <= i < |raws| :: raws[i].acked || Holds(parts, raws[i])
    ensures LoadAll(parts, raws) == parts
    decreases |raws|
  {
    if raws != [] {
      var raw := raws[0];
      if !raw.acked {
        assert Holds(parts, raw);
        var i :| 0 <= i < |At(parts, raw.partition)| && At(parts, raw.partition)[i] == raw;
        assert HasId(At(parts, raw.partition), raw.id);
      }
      assert LoadOne(parts, raw) == parts;
      LoadingAgainAddsNothing(parts, raws[1..]);
    }
  }

  /** Loading a store into an empty node, whatever writes are still outstanding: it rebuilds exactly the
      stored records that are not acknowledged, each once, and loading again adds nothing. */
  lemma LoadingAStore(store: map<string, Msg>, raws: seq<Msg>)
    requires Lists(raws, store)
    ensures var loaded := LoadAll(map[], raws);
            && IdsUnique(loaded)
            && (forall m :: Holds(loaded, m) <==> m.id in store && store[m.id] == m && !m.acked)
            && LoadAll(loaded, raws) == loaded
  {
    hide IdsUnique, LoadAll, Holds;
    ListsDistinctIds(raws, store);
    NothingIsUnique();
    LoadingAddsEachOnce(map[], raws);
    assert forall i | 0 <= i < |raws| :: raws[i] in raws;
    LoadingAgainAddsNothing(LoadAll(map[], raws), raws);
  }

  /** Recovery at any moment of a run, with writes outstanding: what is rebuilt are exactly the stored
      records that are not acknowledged, each once; every one of them has been published; and every
      unacknowledged message whose writes have all taken effect is among them, as it is. */
  lemma RecoveryAtAnyTime(states: seq<System>, steps: seq<Step>, k: nat, raws: seq<Msg>)
    requires ValidRun(states, steps) && k < |states| && Lists(raws, states[k].store)
    ensures var s, loaded := states[k], LoadAll(map[], raws);
            && IdsUnique(loaded) && LoadAll(loaded, raws) == loaded
            && (forall m :: Holds(loaded, m) <==> m.id in s.store && s.store[m.id] == m && !m.acked)
            && (forall m | Holds(loaded, m) :: Known(s, m.id))
            && (forall m | Holds(s.parts, m) && !m.acked && Persist(m.id) !in s.tasks :: Holds(loaded, m))
  {
    hide IdsUnique, ValidRun, LoadAll;
    var s := states[k];
    RunKeepsInv(states, steps, k);
    LoadingAStore(s.store, raws);
    forall m | Holds(s.parts, m) && !m.acked && Persist(m.id) !in s.tasks
      ensures m.id in s.store && s.store[m.id] == m
    {
      var i :| 0 <= i < |At(s.parts, m.partition)| && At(s.parts, m.partition)[i] == m;
      assert Tracked(s, s.parts[m.partition][i]);
    }
  }

  /** Recovery restores exactly the unacknowledged messages: once all scheduled writes of a run have
      taken effect, loading the store into an empty node rebuilds each unacknowledged message once,
      with its partition and delivery count, and nothing else; loading again adds nothing. */
  lemma RecoveryIsExact(states: seq<System>, steps: seq<Step>, k: nat, raws: seq<Msg>)
    requires ValidRun(states, steps) && k < |states| && states[k].tasks == []
    requires Lists(raws, states[k].store)
    ensures var loaded := LoadAll(map[], raws);
            && IdsUnique(loaded)
            && (forall m :: Holds(loaded, m) <==> Holds(states[k].parts, m) && !m.acked)
            && LoadAll(loaded, raws) == loaded
  {
    hide Inv, IdsUnique, ValidRun, LoadAll;
    RunKeepsInv(states, steps, k);
    LoadingAStore(states[k].store, raws);
    forall m: Msg
      ensures m.id in states[k].store && states[k].store[m.id] == m && !m.acked
              <==> Holds(states[k].parts, m) && !m.acked
    {
      StoreIsExact(states[k], m);
    }
  }

  lemma ListsDistinctIds(raws: seq<Msg>, store: map<string, Msg>)
    requires Lists(raws, store)
    ensures DistinctIds(raws)
  {
  }

  lemma NothingIsUnique()
    ensures IdsUnique(map[]) && forall m: Msg :: !Holds(map[], m)
  {
  }
}
