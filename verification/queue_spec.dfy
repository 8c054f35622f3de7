/** One partition of the queue as a list of messages: publishing, consuming, acknowledging, and how
    long a message waits to be delivered. */
module QueueSpec {
  datatype Msg = Msg(id: string, payload: string, partition: nat, acked: bool, deliveries: nat)

  type Partition = seq<Msg>

  /** A committed acknowledgement marks every message with the id. */
  function Acked(s: Partition, id: string): (r: Partition)
    ensures |r| == |s|
    ensures forall i | 0 <= i < |s| :: r[i] == s[i].(acked := s[i].acked || s[i].id == id)
  {
    seq(|s|, i requires 0 <= i < |s| => s[i].(acked := s[i].acked || s[i].id == id))
  }

  /** How many of the first `n` messages are unacknowledged. */
  function UnackedBefore(s: Partition, n: nat): (k: nat)
    requires n <= |s|
    ensures k <= n
  {
    if n == 0 then 0 else UnackedBefore(s, n - 1) + if s[n - 1].acked then 0 else 1
  }

  /** Is message `i` among the first `batch` unacknowledged ones? */
  predicate Taken(s: Partition, i: nat, batch: nat)
    requires i < |s|
  {
    !s[i].acked && UnackedBefore(s, i) < batch
  }

  /** What `consume` returns: the oldest unacknowledged messages, at most `batch`, counted as
      delivered once more. */
  function Batch(s: Partition, n: nat, batch: nat): (r: seq<Msg>)
    requires n <= |s|
  {
    if n == 0 then []
    else Batch(s, n - 1, batch) + if Taken(s, n - 1, batch) then [Delivered(s[n - 1])] else []
  }

  function Delivered(m: Msg): Msg {
    m.(deliveries := m.deliveries + 1)
  }

  /** The partition after `consume`. */
  function Consumed(s: Partition, batch: nat): (r: Partition)
    ensures |r| == |s|
    ensures forall i | 0 <= i < |s| :: r[i] == if Taken(s, i, batch) then Delivered(s[i]) else s[i]
  {
    seq(|s|, i requires 0 <= i < |s| => if Taken(s, i, batch) then Delivered(s[i]) else s[i])
  }

  // ---------------------------------------------------------------- batches

  lemma {:induction false} BatchHoldsTaken(s: Partition, n: nat, batch: nat, i: nat)
    requires i < n <= |s| && Taken(s, i, batch)
    ensures Delivered(s[i]) in Batch(s, n, batch)
  {
    if i < n - 1 { BatchHoldsTaken(s, n - 1, batch, i); }
  }

  /** A batch is as long as asked for, or holds everything unacknowledged. */
  lemma {:induction false} BatchSize(s: Partition, n: nat, batch: nat)
    requires n <= |s|
    ensures |Batch(s, n, batch)| == if UnackedBefore(s, n) <= batch then UnackedBefore(s, n) else batch
  {
    if n > 0 { BatchSize(s, n - 1, batch); }
  }

  /** Whatever is returned is an unacknowledged message of the partition. */
  lemma {:induction false} BatchIsTaken(s: Partition, n: nat, batch: nat, m: Msg) returns (i: nat)
    requires n <= |s| && m in Batch(s, n, batch)
    ensures i < n && Taken(s, i, batch) && m == Delivered(s[i])
  {
    if Taken(s, n - 1, batch) && m == Delivered(s[n - 1]) {
      i := n - 1;
    } else {
      i := BatchIsTaken(s, n - 1, batch, m);
    }
  }

  lemma {:induction false} UnackedGrows(s: Partition, j: nat, i: nat)
    requires j <= i <= |s|
    ensures UnackedBefore(s, j) <= UnackedBefore(s, i)
    decreases i
  {
    if j < i { UnackedGrows(s, j, i - 1); }
  }

  /** Oldest first: a message is taken only if every older unacknowledged one is. */
  lemma OldestAreTaken(s: Partition, j: nat, i: nat, batch: nat)
    requires j <= i < |s| && Taken(s, i, batch) && !s[j].acked
    ensures Taken(s, j, batch)
  {
    UnackedGrows(s, j, i);
  }

  // ---------------------------------------------------------------- waiting

  datatype Event = Publish(message: Msg) | Ack(id: string) | Consume(batch: nat)

  function After(s: Partition, e: Event): Partition {
    match e
    case Publish(m) => s + [m]
    case Ack(id) => Acked(s, id)
    case Consume(b) => Consumed(s, b)
  }

  function AfterAll(s: Partition, events: seq<Event>): Partition
    decreases |events|
  {
    if events == [] then s else AfterAll(After(s, events[0]), events[1..])
  }

  /** The event neither acknowledges the id nor publishes it again. */
  predicate Spares(e: Event, id: string) {
    (e.Ack? ==> e.id != id) && (e.Publish? ==> e.message.id != id)
  }

  predicate AllSpare(events: seq<Event>, id: string) {
    forall e | e in events :: Spares(e, id)
  }

  /** The message at `i` is unacknowledged and the only one with its id. */
  predicate Waits(s: Partition, i: nat, id: string) {
    && i < |s| && s[i].id == id && !s[i].acked
    && forall j | 0 <= j < |s| && j != i :: s[j].id != id
  }

  lemma {:induction false} FewerUnacked(s: Partition, t: Partition, n: nat)
    requires n <= |s| && n <= |t| && forall j | 0 <= j < n :: s[j].acked ==> t[j].acked
    ensures UnackedBefore(t, n) <= UnackedBefore(s, n)
  {
    if n > 0 { FewerUnacked(s, t, n - 1); }
  }

  /** One event moves a waiting message nowhere and puts nothing ahead of it. */
  lemma EventKeepsWaiting(s: Partition, e: Event, i: nat, id: string)
    requires Waits(s, i, id) && Spares(e, id)
    ensures Waits(After(s, e), i, id)
    ensures UnackedBefore(After(s, e), i) <= UnackedBefore(s, i)
  {
    FewerUnacked(s, After(s, e), i);
  }

  /** A committed publish stays consumable, at its place, until an acknowledgement of it commits, and
      the number of unacknowledged messages ahead of it never grows. */
  lemma {:induction false} StaysUntilAcked(s: Partition, events: seq<Event>, i: nat, id: string)
    requires Waits(s, i, id) && AllSpare(events, id)
    ensures Waits(AfterAll(s, events), i, id)
    ensures UnackedBefore(AfterAll(s, events), i) <= UnackedBefore(s, i)
    decreases |events|
  {
    if events != [] {
      EventKeepsWaiting(s, events[0], i, id);
      StaysUntilAcked(After(s, events[0]), events[1..], i, id);
    }
  }

  // ---------------------------------------------------------------- rounds of consuming

  /** What happens between two rounds: `between[0]` before the first consume, `between[k]` after consume
      number `k - 1` and before consume number `k`. This is the partition consume number `k` meets. */
  function BeforeRound(s: Partition, batch: nat, between: seq<seq<Event>>, k: nat): Partition
    requires k < |between|
    decreases k
  {
    var t := AfterAll(s, between[0]);
    if k == 0 then t else BeforeRound(Consumed(t, batch), batch, between[1..], k - 1)
  }

  /** Everything in the batch is acknowledged among the events, except perhaps what has this id. */
  predicate AcksBatch(events: seq<Event>, ms: seq<Msg>, id: string) {
    forall m | m in ms && m.id != id :: Ack(m.id) in events
  }

  /** Before each later consume, the batch of the one before is acknowledged. */
  ghost predicate Diligent(s: Partition, batch: nat, between: seq<seq<Event>>, id: string) {
    forall k: nat | k + 1 < |between| ::
      var t := BeforeRound(s, batch, between, k); AcksBatch(between[k + 1], Batch(t, |t|, batch), id)
  }

  /** Events keep messages where they are, and acknowledged what is or becomes so. */
  lemma {:induction false} EventsKeepPlaces(s: Partition, events: seq<Event>, i: nat)
    requires i < |s|
    ensures |s| <= |AfterAll(s, events)| && AfterAll(s, events)[i].id == s[i].id
    ensures s[i].acked || Ack(s[i].id) in events ==> AfterAll(s, events)[i].acked
    decreases |events|
  {
    if events != [] {
      assert events == [events[0]] + events[1..];
      EventsKeepPlaces(After(s, events[0]), events[1..], i);
    }
  }

  lemma {:induction false} EventsOnlyAdd(s: Partition, events: seq<Event>)
    ensures |s| <= |AfterAll(s, events)|
    decreases |events|
  {
    if events != [] { EventsOnlyAdd(After(s, events[0]), events[1..]); }
  }

  /** When everything taken is acknowledged, as many fewer messages are ahead. */
  lemma {:induction false} TakenAreGone(s: Partition, t: Partition, batch: nat, n: nat)
    requires n <= |s| <= |t|
    requires forall j | 0 <= j < n && (s[j].acked || Taken(s, j, batch)) :: t[j].acked
    ensures UnackedBefore(t, n) <= if UnackedBefore(s, n) <= batch then 0 else UnackedBefore(s, n) - batch
  {
    if n > 0 { TakenAreGone(s, t, batch, n - 1); }
  }

  /** A round that does not return a waiting message brings it forward by a whole batch. */
  lemma RoundBringsForward(s: Partition, batch: nat, events: seq<Event>, i: nat, id: string)
    requires Waits(s, i, id) && AllSpare(events, id) && AcksBatch(events, Batch(s, |s|, batch), id)
    requires UnackedBefore(s, i) >= batch
    ensures Waits(AfterAll(Consumed(s, batch), events), i, id)
    ensures UnackedBefore(AfterAll(Consumed(s, batch), events), i) <= UnackedBefore(s, i) - batch
  {
    hide Batch, AfterAll, UnackedBefore;
    var u := Consumed(s, batch);
    EventKeepsWaiting(s, Consume(batch), i, id);
    StaysUntilAcked(u, events, i, id);
    EventsOnlyAdd(u, events);
    forall j | 0 <= j < i && (s[j].acked || Taken(s, j, batch))
      ensures AfterAll(u, events)[j].acked
    {
      EventsKeepPlaces(u, events, j);
      if Taken(s, j, batch) { BatchHoldsTaken(s, |s|, batch, j); }
    }
    TakenAreGone(s, AfterAll(u, events), batch, i);
  }

  /** After its first events, the rest of a diligent schedule is one. */
  lemma DiligentRest(s: Partition, batch: nat, between: seq<seq<Event>>, id: string)
    requires Diligent(s, batch, between, id) && |between| > 1
    ensures var t := AfterAll(s, between[0]);
            && AcksBatch(between[1], Batch(t, |t|, batch), id)
            && Diligent(Consumed(t, batch), batch, between[1..], id)
  {
    hide AcksBatch, Batch;
    var t := AfterAll(s, between[0]);
    assert BeforeRound(s, batch, between, 0) == t;
    forall k: nat | k + 1 < |between[1..]|
      ensures var v := BeforeRound(Consumed(t, batch), batch, between[1..], k);
              AcksBatch(between[1..][k + 1], Batch(v, |v|, batch), id)
    {
      assert BeforeRound(s, batch, between, k + 1) == BeforeRound(Consumed(t, batch), batch, between[1..], k);
      assert between[1..][k + 1] == between[k + 1 + 1];
    }
  }

  /** Delivery bound: with `d` unacknowledged messages ahead of it, a message is returned in some
      round `k` with `k * batch <= d` (the first round being round 0), if before each later consume the
      other messages of the batch before are acknowledged, in any order and mixed with anything else
      that spares the message: publishing, acknowledging, other clients consuming. */
  lemma {:induction false} DeliveredInTime(s: Partition, batch: nat, between: seq<seq<Event>>, i: nat, id: string)
    returns (k: nat)
    requires batch >= 1 && Waits(s, i, id)
    requires |between| * batch > UnackedBefore(s, i)
    requires Diligent(s, batch, between, id) && forall es | es in between :: AllSpare(es, id)
    ensures k < |between| && k * batch <= UnackedBefore(s, i)
    ensures Waits(BeforeRound(s, batch, between, k), i, id)
    ensures var t := BeforeRound(s, batch, between, k); Delivered(t[i]) in Batch(t, |t|, batch)
  {
    assert between[0] in between;
    StaysUntilAcked(s, between[0], i, id);
    k := DeliveredFrom(s, batch, between, i, id);
  }

  /** The same, counted from the partition the first consume meets. */
  lemma {:induction false} DeliveredFrom(s: Partition, batch: nat, between: seq<seq<Event>>, i: nat, id: string)
    returns (k: nat)
    requires batch >= 1 && between != [] && Waits(AfterAll(s, between[0]), i, id)
    requires |between| * batch > UnackedBefore(AfterAll(s, between[0]), i)
    requires Diligent(s, batch, between, id) && forall es | es in between :: AllSpare(es, id)
    ensures k < |between| && k * batch <= UnackedBefore(AfterAll(s, between[0]), i)
    ensures Waits(BeforeRound(s, batch, between, k), i, id)
    ensures var t := BeforeRound(s, batch, between, k); Delivered(t[i]) in Batch(t, |t|, batch)
    decreases |between|
  {
    hide AfterAll, Batch, Diligent, AllSpare, AcksBatch, Consumed, UnackedBefore, BeforeRound;
    var t := AfterAll(s, between[0]);
    if UnackedBefore(t, i) < batch {
      k := 0;
      WaitingIsTaken(t, batch, i, id);
      RoundsInOrder(s, batch, between, 0);
    } else {
      assert |between| > 1;
      var rest := between[1..];
      assert rest[0] == between[1] && forall es | es in rest :: es in between;
      DiligentRest(s, batch, between, id);
      RoundBringsForward(t, batch, between[1], i, id);
      OneMore(|rest|, batch);
      k := DeliveredFrom(Consumed(t, batch), batch, rest, i, id);
      OneMore(k, batch);
      RoundsInOrder(s, batch, between, k + 1);
      k := k + 1;
    }
  }

  lemma WaitingIsTaken(s: Partition, batch: nat, i: nat, id: string)
    requires Waits(s, i, id) && UnackedBefore(s, i) < batch
    ensures Delivered(s[i]) in Batch(s, |s|, batch)
  {
    BatchHoldsTaken(s, |s|, batch, i);
  }

  lemma RoundsInOrder(s: Partition, batch: nat, between: seq<seq<Event>>, k: nat)
    requires k < |between|
    ensures var t := AfterAll(s, between[0]);
            BeforeRound(s, batch, between, k)
            == if k == 0 then t else BeforeRound(Consumed(t, batch), batch, between[1..], k - 1)
  {
  }

  lemma OneMore(n: nat, batch: nat)
    ensures (n + 1) * batch == n * batch + batch
  {
  }
}
