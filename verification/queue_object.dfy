/** The queue as the object it is: message objects shared by the partitions and the pending list and
    updated in place. */
module Queues {
  import opened CoreTypes
  import Spec = QueueSpec
  import Recovery = QueueRecovery

  class QueueMessage {
    const msgId: string
    const payload: string
    const partitionId: nat
    var acked: bool
    var deliveryCount: nat

    constructor (msgId: string, payload: string, partitionId: nat)
      ensures Value() == Spec.Msg(msgId, payload, partitionId, false, 0)
    {
      this.msgId, this.payload, this.partitionId := msgId, payload, partitionId;
      acked, deliveryCount := false, 0;
    }

    ghost function Value(): Spec.Msg
      reads this
    {
      Spec.Msg(msgId, payload, partitionId, acked, deliveryCount)
    }
  }

  type Messages = seq<QueueMessage>

  ghost function Values(s: Messages): (r: Spec.Partition)
    reads s
    ensures |r| == |s| && forall i | 0 <= i < |s| :: r[i] == s[i].Value()
  {
    seq(|s|, i requires 0 <= i < |s| reads s => s[i].Value())
  }

  /** The messages of `s` outside `gone`, in order. */
  ghost function Excluding(s: Messages, gone: set<QueueMessage>): Messages {
    if s == [] then []
    else Excluding(s[..|s| - 1], gone) + if s[|s| - 1] in gone then [] else [s[|s| - 1]]
  }

  ghost function Unacked(s: Messages): Messages
    reads s
  {
    Excluding(s, set m | m in s && m.acked)
  }

  ghost function OfPartition(s: Messages, p: nat): Messages {
    Excluding(s, set m | m in s && m.partitionId != p)
  }

  ghost function WithoutId(s: Messages, id: string): Messages {
    Excluding(s, set m | m in s && m.msgId == id)
  }

  // ---------------------------------------------------------------- lists of messages

  lemma ExcludingSnoc(s: Messages, m: QueueMessage, gone: set<QueueMessage>)
    ensures Excluding(s + [m], gone) == Excluding(s, gone) + if m in gone then [] else [m]
  {
  }

  lemma {:induction false} ExcludingMembers(s: Messages, gone: set<QueueMessage>)
    ensures forall m | m in Excluding(s, gone) :: m in s && m !in gone
    ensures forall m | m in s && m !in gone :: m in Excluding(s, gone)
  {
    if s != [] {
      ExcludingMembers(s[..|s| - 1], gone);
      assert s == s[..|s| - 1] + [s[|s| - 1]];
    }
  }

  lemma {:induction false} NothingExcluded(s: Messages, gone: set<QueueMessage>)
    requires forall m | m in s :: m !in gone
    ensures Excluding(s, gone) == s
  {
    if s != [] { NothingExcluded(s[..|s| - 1], gone); }
  }

  /** Only what is excluded from `s` itself matters. */
  lemma {:induction false} ExcludingSame(s: Messages, gone: set<QueueMessage>, gone': set<QueueMessage>)
    requires forall m | m in s :: m in gone <==> m in gone'
    ensures Excluding(s, gone) == Excluding(s, gone')
  {
    if s != [] {
      ExcludingSame(s[..|s| - 1], gone, gone');
    }
  }

  lemma {:induction false} ExcludingTwice(s: Messages, a: set<QueueMessage>, b: set<QueueMessage>)
    ensures Excluding(Excluding(s, a), b) == Excluding(s, a + b)
  {
    if s != [] {
      var init, last := s[..|s| - 1], s[|s| - 1];
      ExcludingTwice(init, a, b);
      if last in a {
        assert Excluding(init, a) + [] == Excluding(init, a);
      } else {
        ExcludingSnoc(Excluding(init, a), last, b);
      }
    }
  }

  /** The messages acknowledged by a new acknowledgement of `id` leave the unacknowledged ones. */
  lemma AckExcludes(s: Messages, acked: set<QueueMessage>, acked': set<QueueMessage>, id: string)
    requires forall m | m in s :: m in acked' <==> m in acked || m.msgId == id
    ensures Excluding(s, acked') == WithoutId(Excluding(s, acked), id)
  {
    var rest := Excluding(s, acked);
    var ids := set m | m in rest && m.msgId == id;
    var all := set m | m in s && m.msgId == id;
    ExcludingMembers(s, acked);
    ExcludingSame(rest, ids, all);
    ExcludingTwice(s, acked, all);
    ExcludingSame(s, acked', acked + all);
  }

  /** Filtering by id and by partition commute. */
  lemma PartitionWithoutId(s: Messages, p: nat, id: string)
    ensures OfPartition(WithoutId(s, id), p) == WithoutId(OfPartition(s, p), id)
  {
    var others := set m | m in s && m.partitionId != p;
    var ids := set m | m in s && m.msgId == id;
    ExcludingMembers(s, others);
    ExcludingMembers(s, ids);
    ExcludingSame(WithoutId(s, id), (set m | m in WithoutId(s, id) && m.partitionId != p), others);
    ExcludingSame(OfPartition(s, p), (set m | m in OfPartition(s, p) && m.msgId == id), ids);
    ExcludingTwice(s, ids, others);
    ExcludingTwice(s, others, ids);
    assert ids + others == others + ids;
  }

  lemma {:induction false} UnackedCount(s: Messages, gone: set<QueueMessage>, values: Spec.Partition, n: nat)
    requires n <= |s| == |values| && forall i | 0 <= i < |s| :: values[i].acked <==> s[i] in gone
    ensures |Excluding(s[..n], gone)| == Spec.UnackedBefore(values, n)
  {
    if n > 0 {
      UnackedCount(s, gone, values, n - 1);
      assert s[..n] == s[..n - 1] + [s[n - 1]];
      ExcludingSnoc(s[..n - 1], s[n - 1], gone);
    }
  }

  function Take(s: Messages, n: nat): Messages {
    if n >= |s| then s else s[..n]
  }

  /** The messages a batch takes from the first `n` of a list with these values. */
  ghost function TakenOf(s: Messages, values: Spec.Partition, n: nat, batch: nat): Messages
    requires n <= |s| == |values|
  {
    if n == 0 then []
    else TakenOf(s, values, n - 1, batch) + if Spec.Taken(values, n - 1, batch) then [s[n - 1]] else []
  }

  /** The first unacknowledged messages are the ones taken. */
  lemma {:induction false} FirstUnackedAreTaken(s: Messages, gone: set<QueueMessage>, values: Spec.Partition,
                                                n: nat, batch: nat)
    requires n <= |s| == |values| && forall i | 0 <= i < |s| :: values[i].acked <==> s[i] in gone
    ensures Take(Excluding(s[..n], gone), batch) == TakenOf(s, values, n, batch)
  {
    hide Excluding, Spec.UnackedBefore;
    if n == 0 {
      NothingExcluded([], gone);
    } else {
      FirstUnackedAreTaken(s, gone, values, n - 1, batch);
      UnackedCount(s, gone, values, n - 1);
      assert s[..n] == s[..n - 1] + [s[n - 1]];
      ExcludingSnoc(s[..n - 1], s[n - 1], gone);
    }
  }

  lemma {:induction false} TakenMembers(s: Messages, values: Spec.Partition, n: nat, batch: nat)
    requires n <= |s| == |values|
    ensures forall i | 0 <= i < n && Spec.Taken(values, i, batch) :: s[i] in TakenOf(s, values, n, batch)
    ensures forall m | m in TakenOf(s, values, n, batch) ::
              exists i | 0 <= i < n :: s[i] == m && Spec.Taken(values, i, batch)
  {
    if n > 0 { TakenMembers(s, values, n - 1, batch); }
  }

  /** Counted as delivered once more, they are the batch. */
  lemma {:induction false} TakenValues(s: Messages, values: Spec.Partition, n: nat, batch: nat)
    requires n <= |s| == |values|
    requires forall i | 0 <= i < n && Spec.Taken(values, i, batch) :: s[i].Value() == Spec.Delivered(values[i])
    ensures Values(TakenOf(s, values, n, batch)) == Spec.Batch(values, n, batch)
  {
    if n > 0 { TakenValues(s, values, n - 1, batch); }
  }

  // ---------------------------------------------------------------- all partitions

  type Lists = map<nat, Messages>

  ghost function AllIn(lists: Lists): set<QueueMessage> {
    set p, m | p in lists && m in lists[p] :: m
  }

  function At(lists: Lists, p: nat): Messages {
    if p in lists then lists[p] else []
  }

  lemma ListIsInAll(lists: Lists, p: nat)
    ensures forall m | m in At(lists, p) :: m in AllIn(lists)
  {
  }

  /** Every message is in its partition, once. */
  ghost predicate Proper(lists: Lists) {
    && (forall p, i | p in lists && 0 <= i < |lists[p]| :: lists[p][i].partitionId == p)
    && (forall p, i, j | p in lists && 0 <= i < j < |lists[p]| :: lists[p][i] != lists[p][j])
  }

  ghost function ViewOf(lists: Lists): Recovery.Partitions
    reads AllIn(lists)
  {
    map p | p in lists :: (ListIsInAll(lists, p); Values(lists[p]))
  }

  lemma ViewAt(lists: Lists)
    ensures ViewOf(lists).Keys == lists.Keys
    ensures forall p | p in lists :: ViewOf(lists)[p] == Values(lists[p])
    ensures forall p, i | p in lists && 0 <= i < |lists[p]| :: ViewOf(lists)[p][i] == lists[p][i].Value()
  {
  }

  ghost predicate ExactAt(lists: Lists, pending: Messages, p: nat)
    reads AllIn(lists)
  {
    ListIsInAll(lists, p);
    OfPartition(pending, p) == Unacked(At(lists, p))
  }

  /** The pending list is, partition by partition and in order, the unacknowledged messages. */
  ghost predicate Exact(lists: Lists, pending: Messages)
    reads AllIn(lists)
  {
    forall p :: ExactAt(lists, pending, p)
  }

  function WithMessage(lists: Lists, m: QueueMessage): Lists {
    lists[m.partitionId := At(lists, m.partitionId) + [m]]
  }

  lemma PublishedView(lists: Lists, m: QueueMessage)
    ensures ViewOf(WithMessage(lists, m)) == Recovery.Published(ViewOf(lists), m.Value())
  {
    assert Values(At(lists, m.partitionId) + [m]) == Values(At(lists, m.partitionId)) + [m.Value()];
  }

  lemma PublishedProper(lists: Lists, m: QueueMessage)
    requires Proper(lists) && m !in AllIn(lists)
    ensures Proper(WithMessage(lists, m))
  {
    ListIsInAll(lists, m.partitionId);
  }

  lemma PublishedExact(lists: Lists, pending: Messages, m: QueueMessage)
    requires Exact(lists, pending) && !m.acked
    ensures Exact(WithMessage(lists, m), pending + [m])
  {
    hide Excluding;
    forall p
      ensures ExactAt(WithMessage(lists, m), pending + [m], p)
    {
      assert ExactAt(lists, pending, p);
      JoinLists(pending, At(lists, p), m, p);
    }
  }

  /** A message joins both lists. */
  lemma JoinLists(pending: Messages, list: Messages, m: QueueMessage, p: nat)
    ensures OfPartition(pending + [m], p) == OfPartition(pending, p) + if m.partitionId == p then [m] else []
    ensures Unacked(list + [m]) == Unacked(list) + if m.acked then [] else [m]
  {
    var others := set x | x in pending + [m] && x.partitionId != p;
    var acked := set x | x in list + [m] && x.acked;
    ExcludingSnoc(pending, m, others);
    ExcludingSnoc(list, m, acked);
    ExcludingSame(pending, others, (set x | x in pending && x.partitionId != p));
    ExcludingSame(list, acked, (set x | x in list && x.acked));
  }

  /** Which messages were acknowledged is kept as a set; now those with the id are too. */
  lemma AckedExact(lists: Lists, pending: Messages, before: set<QueueMessage>, id: string)
    requires IndexedBy(lists, pending, before)
    requires forall m | m in AllIn(lists) :: m.acked <==> m in before || m.msgId == id
    ensures Exact(lists, WithoutId(pending, id))
  {
    hide Excluding, OfPartition, WithoutId;
    forall p
      ensures ExactAt(lists, WithoutId(pending, id), p)
    {
      var list := At(lists, p);
      ListIsInAll(lists, p);
      PartitionWithoutId(pending, p, id);
      AckExcludes(list, before, (set m | m in list && m.acked), id);
    }
  }

  lemma AckedView(lists: Lists, before: Recovery.Partitions, id: string)
    requires before.Keys == lists.Keys && forall p | p in lists :: |before[p]| == |lists[p]|
    requires forall p, i | p in lists && 0 <= i < |lists[p]| ::
               lists[p][i].Value() == before[p][i].(acked := before[p][i].acked || before[p][i].id == id)
    ensures ViewOf(lists) == Recovery.AckedEverywhere(before, id)
  {
    forall p | p in lists
      ensures Values(lists[p]) == Spec.Acked(before[p], id)
    {
    }
  }

  lemma ConsumedView(lists: Lists, before: Recovery.Partitions, p: nat, batch: nat)
    requires before.Keys == lists.Keys && forall q | q in lists :: |before[q]| == |lists[q]|
    requires forall q, i | q in lists && 0 <= i < |lists[q]| ::
               lists[q][i].Value() == if q == p && Spec.Taken(before[q], i, batch)
                                      then Spec.Delivered(before[q][i]) else before[q][i]
    ensures ViewOf(lists) == Recovery.ConsumedAt(before, p, batch)
  {
    forall q | q in lists
      ensures Values(lists[q]) == if q == p then Spec.Consumed(before[q], batch) else before[q]
    {
    }
  }

  ghost predicate IndexedBy(lists: Lists, pending: Messages, acked: set<QueueMessage>) {
    forall p :: OfPartition(pending, p) == Excluding(At(lists, p), acked)
  }

  /** Being exact depends only on which messages are acknowledged. */
  lemma ExactBySet(lists: Lists, pending: Messages, acked: set<QueueMessage>)
    requires forall m | m in AllIn(lists) :: m in acked <==> m.acked
    ensures Exact(lists, pending) <==> IndexedBy(lists, pending, acked)
  {
    hide Excluding, OfPartition;
    forall p
      ensures Unacked(At(lists, p)) == Excluding(At(lists, p), acked)
    {
      ListIsInAll(lists, p);
      ExcludingSame(At(lists, p), (set m | m in At(lists, p) && m.acked), acked);
    }
    assert forall p :: ExactAt(lists, pending, p) <==> OfPartition(pending, p) == Excluding(At(lists, p), acked);
  }

  // ---------------------------------------------------------------- totals

  /** The keys of a dictionary, each once, in some order. */
  ghost predicate Enumerates(order: seq<nat>, keys: set<nat>) {
    && (forall p :: p in order <==> p in keys)
    && (forall i, j | 0 <= i < j < |order| :: order[i] != order[j])
  }

  lemma EnumeratesStep(order: seq<nat>, all: set<nat>, rest: set<nat>, p: nat)
    requires Enumerates(order, all - rest) && p in rest && rest <= all
    ensures Enumerates(order + [p], all - (rest - {p}))
  {
  }

  ghost function TotalLength(parts: Recovery.Partitions, order: seq<nat>): nat {
    if order == [] then 0
    else TotalLength(parts, order[..|order| - 1]) + |Recovery.At(parts, order[|order| - 1])|
  }

  ghost function TotalUnacked(parts: Recovery.Partitions, order: seq<nat>): nat {
    if order == [] then 0
    else
      var list := Recovery.At(parts, order[|order| - 1]);
      TotalUnacked(parts, order[..|order| - 1]) + Spec.UnackedBefore(list, |list|)
  }

  lemma EmptyOrder(parts: Recovery.Partitions)
    ensures Enumerates([], {}) && TotalLength(parts, []) == TotalUnacked(parts, []) == 0
  {
  }

  lemma TotalsStep(parts: Recovery.Partitions, order: seq<nat>, p: nat)
    ensures TotalLength(parts, order + [p]) == TotalLength(parts, order) + |Recovery.At(parts, p)|
    ensures TotalUnacked(parts, order + [p])
            == TotalUnacked(parts, order) + Spec.UnackedBefore(Recovery.At(parts, p), |Recovery.At(parts, p)|)
  {
  }

  ghost function Elsewhere(s: Messages, order: seq<nat>): set<QueueMessage> {
    set m | m in s && m.partitionId !in order
  }

  /** Taking in one more partition adds the messages of that partition. */
  lemma {:induction false} MorePartitions(s: Messages, order: seq<nat>, p: nat, others: set<QueueMessage>,
                                          less: set<QueueMessage>, more: set<QueueMessage>)
    requires p !in order
    requires forall m | m in s :: m in others <==> m.partitionId != p
    requires forall m | m in s :: m in less <==> m.partitionId !in order
    requires forall m | m in s :: m in more <==> m.partitionId !in order + [p]
    ensures |Excluding(s, more)| == |Excluding(s, less)| + |Excluding(s, others)|
  {
    if s != [] { MorePartitions(s[..|s| - 1], order, p, others, less, more); }
  }

  lemma {:induction false} AllExcluded(s: Messages, gone: set<QueueMessage>)
    requires forall m | m in s :: m in gone
    ensures Excluding(s, gone) == []
  {
    if s != [] { AllExcluded(s[..|s| - 1], gone); }
  }

  lemma {:induction false} UnackedPerPartition(lists: Lists, pending: Messages, order: seq<nat>)
    requires Exact(lists, pending)
    requires forall i, j | 0 <= i < j < |order| :: order[i] != order[j]
    ensures TotalUnacked(ViewOf(lists), order) == |Excluding(pending, Elsewhere(pending, order))|
  {
    hide Excluding;
    if order == [] {
      AllExcluded(pending, Elsewhere(pending, order));
    } else {
      var init, p := order[..|order| - 1], order[|order| - 1];
      assert order == init + [p];
      UnackedPerPartition(lists, pending, init);
      assert ExactAt(lists, pending, p);
      var list := At(lists, p);
      ListIsInAll(lists, p);
      UnackedCount(list, (set m | m in list && m.acked), Values(list), |list|);
      assert list[..|list|] == list;
      MorePartitions(pending, init, p, (set m | m in pending && m.partitionId != p),
                     Elsewhere(pending, init), Elsewhere(pending, order));
    }
  }

  /** The number of unacknowledged messages over all partitions is the length of the pending list. */
  lemma TotalsAgree(lists: Lists, pending: Messages, order: seq<nat>)
    requires Exact(lists, pending) && Enumerates(order, lists.Keys)
    ensures TotalUnacked(ViewOf(lists), order) == |pending|
  {
    hide Excluding, TotalUnacked;
    UnackedPerPartition(lists, pending, order);
    forall m | m in pending
      ensures m !in Elsewhere(pending, order)
    {
      var p := m.partitionId;
      assert ExactAt(lists, pending, p);
      ExcludingMembers(pending, set x | x in pending && x.partitionId != p);
      ExcludingMembers(At(lists, p), set x | x in At(lists, p) && x.acked);
    }
    NothingExcluded(pending, Elsewhere(pending, order));
  }

  // ---------------------------------------------------------------- totals as numbers of messages

  ghost function SumLengths(lists: Lists, order: seq<nat>): nat {
    if order == [] then 0 else SumLengths(lists, order[..|order| - 1]) + |At(lists, order[|order| - 1])|
  }

  ghost function InPartitions(lists: Lists, order: seq<nat>): set<QueueMessage> {
    set p, m | p in lists && p in order && m in lists[p] :: m
  }

  lemma {:induction false} DistinctMembers(s: Messages)
    requires forall i, j | 0 <= i < j < |s| :: s[i] != s[j]
    ensures |set m | m in s| == |s|
  {
    if s != [] {
      var k := |s| - 1;
      DistinctMembers(s[..k]);
      assert s == s[..k] + [s[k]] && s[k] !in s[..k];
      assert (set m | m in s) == (set m | m in s[..k]) + {s[k]};
    }
  }

  lemma OneMorePartition(lists: Lists, order: seq<nat>, p: nat)
    requires Proper(lists) && p !in order
    ensures |InPartitions(lists, order + [p])| == |InPartitions(lists, order)| + |At(lists, p)|
  {
    var here := set m | m in At(lists, p);
    DistinctMembers(At(lists, p));
    assert InPartitions(lists, order + [p]) == InPartitions(lists, order) + here;
    forall m | m in InPartitions(lists, order)
      ensures m !in here
    {
      var q :| q in lists && q in order && m in lists[q];
      assert m.partitionId == q;
    }
    assert InPartitions(lists, order) !! here;
  }

  /** Summed over different partitions, the lengths are the number of messages in them. */
  lemma {:induction false} SumIsNumber(lists: Lists, order: seq<nat>)
    requires Proper(lists) && forall i, j | 0 <= i < j < |order| :: order[i] != order[j]
    ensures SumLengths(lists, order) == |InPartitions(lists, order)|
  {
    hide Proper;
    if order != [] {
      var k := |order| - 1;
      assert order == order[..k] + [order[k]] && order[k] !in order[..k];
      SumIsNumber(lists, order[..k]);
      OneMorePartition(lists, order[..k], order[k]);
    } else {
      assert InPartitions(lists, order) == {};
    }
  }

  ghost function UnackedLists(lists: Lists): Lists
    reads AllIn(lists)
  {
    map p | p in lists :: (ListIsInAll(lists, p); Unacked(lists[p]))
  }

  lemma UnackedMembers(lists: Lists, p: nat)
    requires Proper(lists) && p in lists
    ensures UnackedLists(lists)[p] == Unacked(lists[p])
    ensures forall m :: m in UnackedLists(lists)[p] <==> m in lists[p] && !m.acked
    ensures forall m | m in UnackedLists(lists)[p] :: m.partitionId == p
    ensures var s := UnackedLists(lists)[p]; forall i, j | 0 <= i < j < |s| :: s[i] != s[j]
  {
    hide Excluding;
    ExcludingMembers(lists[p], set m | m in lists[p] && m.acked);
    ExcludingDistinct(lists[p], set m | m in lists[p] && m.acked);
    assert forall m | m in lists[p] :: m.partitionId == p;
  }

  lemma UnackedListsAreProper(lists: Lists)
    requires Proper(lists)
    ensures Proper(UnackedLists(lists)) && UnackedLists(lists).Keys == lists.Keys
    ensures AllIn(UnackedLists(lists)) == set m | m in AllIn(lists) && !m.acked
  {
    hide Unacked;
    var less: Lists := UnackedLists(lists);
    forall p | p in lists
      ensures forall m :: m in less[p] <==> m in lists[p] && !m.acked
      ensures forall m | m in less[p] :: m.partitionId == p
      ensures forall i, j | 0 <= i < j < |less[p]| :: less[p][i] != less[p][j]
    {
      UnackedMembers(lists, p);
    }
    assert forall p, i | p in less && 0 <= i < |less[p]| :: less[p][i] in less[p];
    forall m | m in AllIn(lists) && !m.acked
      ensures m in AllIn(less)
    {
      var p :| p in lists && m in lists[p];
      assert m in less[p];
    }
    forall m | m in AllIn(less)
      ensures m in AllIn(lists) && !m.acked
    {
      var p :| p in less && m in less[p];
      assert m in lists[p];
    }
  }

  lemma {:induction false} TotalsAreSums(lists: Lists, order: seq<nat>)
    ensures TotalLength(ViewOf(lists), order) == SumLengths(lists, order)
    ensures TotalUnacked(ViewOf(lists), order) == SumLengths(UnackedLists(lists), order)
  {
    hide Excluding;
    if order != [] {
      TotalsAreSums(lists, order[..|order| - 1]);
      var list := At(lists, order[|order| - 1]);
      assert list[..|list|] == list;
      UnackedCount(list, (set m | m in list && m.acked), Values(list), |list|);
    }
  }

  lemma AllPartitions(lists: Lists, order: seq<nat>)
    requires Enumerates(order, lists.Keys)
    ensures InPartitions(lists, order) == AllIn(lists)
  {
  }

  /** The totals count messages: all of them, and those not acknowledged. */
  lemma TotalsAreNumbers(lists: Lists, order: seq<nat>)
    requires Proper(lists) && Enumerates(order, lists.Keys)
    ensures TotalLength(ViewOf(lists), order) == |AllIn(lists)|
    ensures TotalUnacked(ViewOf(lists), order) == |set m | m in AllIn(lists) && !m.acked|
  {
    hide Proper, AllIn, ViewOf, SumLengths, InPartitions;
    TotalsAreSums(lists, order);
    UnackedListsAreProper(lists);
    SumIsNumber(lists, order);
    SumIsNumber(UnackedLists(lists), order);
    AllPartitions(lists, order);
    AllPartitions(UnackedLists(lists), order);
  }

  // ---------------------------------------------------------------- batches

  /** A slice `[:batch]`, which counts from the end when `batch` is negative. */
  function EffectiveBatch(batch: int, available: nat): nat {
    if batch >= 0 then batch else if available + batch >= 0 then available + batch else 0
  }

  /** How many of so many messages a slice `[:batch]` keeps. */
  function SliceLength(batch: int, available: nat): (n: nat)
    ensures 0 <= batch <= available ==> n == batch
    ensures batch > available ==> n == available
    ensures batch < 0 <= batch + available ==> n == batch + available
    ensures batch + available < 0 ==> n == 0
  {
    if batch < 0 then (if available + batch < 0 then 0 else available + batch)
    else if batch < available then batch else available
  }

  lemma {:induction false} ExcludingDistinct(s: Messages, gone: set<QueueMessage>)
    requires forall i, j | 0 <= i < j < |s| :: s[i] != s[j]
    ensures forall i, j | 0 <= i < j < |Excluding(s, gone)| :: Excluding(s, gone)[i] != Excluding(s, gone)[j]
  {
    if s != [] {
      ExcludingDistinct(s[..|s| - 1], gone);
      ExcludingMembers(s[..|s| - 1], gone);
    }
  }

  /** The messages `consume` picks are those the batch takes, each once. */
  lemma PickedAreTaken(list: Messages, batch: int, picked: Messages, n: nat)
    requires forall i, j | 0 <= i < j < |list| :: list[i] != list[j]
    requires n == EffectiveBatch(batch, |Unacked(list)|) && picked == Take(Unacked(list), n)
    ensures n == EffectiveBatch(batch, Spec.UnackedBefore(Values(list), |list|))
    ensures |picked| == SliceLength(batch, Spec.UnackedBefore(Values(list), |list|))
    ensures picked == TakenOf(list, Values(list), |list|, n)
    ensures forall i, j | 0 <= i < j < |picked| :: picked[i] != picked[j]
    ensures forall i | 0 <= i < |list| :: list[i] in picked <==> Spec.Taken(Values(list), i, n)
    ensures forall m | m in picked :: m in list
  {
    var acked := set m | m in list && m.acked;
    assert list[..|list|] == list;
    UnackedCount(list, acked, Values(list), |list|);
    FirstUnackedAreTaken(list, acked, Values(list), |list|, n);
    TakenMembers(list, Values(list), |list|, n);
    ExcludingDistinct(list, acked);
  }

  // ---------------------------------------------------------------- scheduled writes

  /** A scheduled write: the message object is read when the write takes effect. */
  datatype Write = PersistMessage(message: QueueMessage) | DeleteRecord(id: string)

  ghost function TasksOf(ws: seq<Write>): (r: seq<Recovery.Task>)
    ensures |r| == |ws|
  {
    seq(|ws|, i requires 0 <= i < |ws| =>
      if ws[i].PersistMessage? then Recovery.Persist(ws[i].message.msgId) else Recovery.Delete(ws[i].id))
  }

  function PersistEach(ms: Messages): (r: seq<Write>)
    ensures |r| == |ms| && forall i | 0 <= i < |ms| :: r[i] == PersistMessage(ms[i])
  {
    seq(|ms|, i requires 0 <= i < |ms| => PersistMessage(ms[i]))
  }

  lemma TasksJoin(a: seq<Write>, b: seq<Write>)
    ensures TasksOf(a + b) == TasksOf(a) + TasksOf(b)
  {
  }

  lemma PersistEachIsPersistAll(ms: Messages)
    ensures TasksOf(PersistEach(ms)) == Recovery.PersistAll(Values(ms))
  {
  }

  /** Delivering the picked messages consumes the batch. */
  lemma DeliveredView(lists: Lists, before: Recovery.Partitions, p: nat, picked: Messages, n: nat)
    requires Proper(lists) && before.Keys == lists.Keys && forall q | q in lists :: |before[q]| == |lists[q]|
    requires picked == TakenOf(At(lists, p), Recovery.At(before, p), |At(lists, p)|, n)
    requires forall i | 0 <= i < |At(lists, p)| ::
               At(lists, p)[i] in picked <==> Spec.Taken(Recovery.At(before, p), i, n)
    requires forall m | m in picked :: m in At(lists, p)
    requires forall q, i | q in lists && 0 <= i < |lists[q]| ::
               lists[q][i].Value() == if lists[q][i] in picked then Spec.Delivered(before[q][i]) else before[q][i]
    ensures ViewOf(lists) == Recovery.ConsumedAt(before, p, n)
    ensures Values(picked) == Spec.Batch(Recovery.At(before, p), |At(lists, p)|, n)
  {
    hide TakenOf, ViewOf, Recovery.ConsumedAt, Spec.Batch, Spec.Taken;
    assert forall m | m in picked :: m.partitionId == p;
    TakenValues(At(lists, p), Recovery.At(before, p), |At(lists, p)|, n);
    ConsumedView(lists, before, p, n);
  }

  // ---------------------------------------------------------------- the queue object

  class DistributedQueue {
    const persistenceEnabled: bool
    var attached: bool
    var partitions: Lists
    var pending: Messages
    var writes: seq<Write>
    var store: map<string, Spec.Msg>
    ghost var used: set<string>

    ghost predicate Valid()
      reads this
    {
      && Proper(partitions)
      && forall w | w in writes && w.PersistMessage? :: w.message in AllIn(partitions)
    }

    ghost function View(): Recovery.Partitions
      reads this, AllIn(partitions)
    {
      ViewOf(partitions)
    }

    /** The whole state as a state of the recovery machine. */
    ghost function System(): Recovery.System
      reads this, AllIn(partitions)
    {
      Recovery.System(View(), TasksOf(writes), store, used)
    }

    ghost predicate PendingExact()
      reads this, AllIn(partitions)
    {
      Exact(partitions, pending)
    }

    /** Writes reach the store. */
    predicate Durable()
      reads this
    {
      persistenceEnabled && attached
    }

    constructor (persistenceEnabled: bool, attached: bool)
      ensures Valid() && PendingExact()
      ensures this.persistenceEnabled == persistenceEnabled && this.attached == attached
      ensures System() == Recovery.System(map[], [], map[], {}) && pending == []
    {
      this.persistenceEnabled, this.attached := persistenceEnabled, attached;
      partitions, pending, writes, store, used := map[], [], [], map[], {};
    }

    method SchedulePersist(m: QueueMessage)
      modifies this`writes
      ensures writes == if attached then old(writes) + [PersistMessage(m)] else old(writes)
    {
      if attached { writes := writes + [PersistMessage(m)]; }
    }

    method ScheduleDelete(id: string)
      modifies this`writes
      ensures writes == if attached then old(writes) + [DeleteRecord(id)] else old(writes)
    {
      if attached { writes := writes + [DeleteRecord(id)]; }
    }

    // -------------------------------------------------------------- commits

    method CommitPublish(c: Command) returns (message: QueueMessage)
      requires Valid() && c.QueuePublish?
      modifies this`partitions, this`pending, this`writes, this`used
      ensures Valid() && fresh(message)
      ensures message.Value() == Spec.Msg(c.msgId, c.payload, c.partition, false, 0)
      ensures View() == Recovery.Published(old(View()), message.Value())
      ensures pending == if persistenceEnabled then old(pending) + [message] else old(pending)
      ensures writes == if Durable() then old(writes) + [PersistMessage(message)] else old(writes)
      ensures used == old(used) + {c.msgId}
      ensures persistenceEnabled && old(PendingExact()) ==> PendingExact()
    {
      hide Proper, Exact, Excluding, ViewOf, Recovery.Published;
      ghost var lists, before, exact := partitions, pending, PendingExact();
      message := new QueueMessage(c.msgId, c.payload, c.partition);
      partitions := partitions[c.partition := At(partitions, c.partition) + [message]];
      used := used + {c.msgId};
      if persistenceEnabled {
        pending := pending + [message];
        SchedulePersist(message);
      }
      AllInGrows(lists, message);
      PublishedProper(lists, message);
      PublishedView(lists, message);
      assert ViewOf(lists) == old(View());
      assert exact ==> Exact(lists, before);
      if persistenceEnabled && exact { PublishedExact(lists, before, message); }
    }

    method CommitAck(id: string)
      requires Valid()
      modifies this`pending, this`writes, this`used, AllIn(partitions)
      ensures Valid() && partitions == old(partitions)
      ensures View() == Recovery.AckedEverywhere(old(View()), id)
      ensures pending == WithoutId(old(pending), id)
      ensures writes == if attached then old(writes) + [DeleteRecord(id)] else old(writes)
      ensures used == old(used) + {id}
      ensures old(PendingExact()) ==> PendingExact()
    {
      hide Proper, Excluding;
      ghost var acked := set m | m in AllIn(partitions) && m.acked;
      ghost var exact := PendingExact();
      ExactBySet(partitions, pending, acked);
      used := used + {id};
      MarkAcked(id);
      FilterPending(id);
      ScheduleDelete(id);
      forall p, i | p in partitions && 0 <= i < |partitions[p]|
        ensures partitions[p][i].Value()
                == old(partitions[p][i].Value()).(acked := old(partitions[p][i].acked) || partitions[p][i].msgId == id)
      {
        assert partitions[p][i] in partitions[p] && partitions[p][i] in AllIn(partitions);
      }
      AckedView(partitions, old(View()), id);
      if exact { AckedExact(partitions, old(pending), acked, id); }
    }

    /** Every message with the id is marked, in all partitions. */
    method MarkAcked(id: string)
      modifies AllIn(partitions)
      ensures forall m | m in AllIn(partitions) ::
                m.acked == (old(m.acked) || m.msgId == id) && m.deliveryCount == old(m.deliveryCount)
    {
      var rest := partitions.Keys;
      while rest != {}
        invariant rest <= partitions.Keys && partitions == old(partitions)
        invariant forall m | m in AllIn(partitions) ::
          && m.deliveryCount == old(m.deliveryCount)
          && (m.acked ==> old(m.acked) || m.msgId == id) && (old(m.acked) ==> m.acked)
        invariant forall p, i | p in partitions && p !in rest && 0 <= i < |partitions[p]| ::
          partitions[p][i].msgId == id ==> partitions[p][i].acked
        decreases rest
      {
        var p :| p in rest;
        rest := rest - {p};
        for i := 0 to |partitions[p]|
          invariant partitions == old(partitions)
          invariant forall m | m in AllIn(partitions) ::
            && m.deliveryCount == old(m.deliveryCount)
            && (m.acked ==> old(m.acked) || m.msgId == id) && (old(m.acked) ==> m.acked)
          invariant forall q, j | q in partitions && 0 <= j < |partitions[q]|
                                  && (q !in rest + {p} || (q == p && j < i)) ::
            partitions[q][j].msgId == id ==> partitions[q][j].acked
        {
          var m := partitions[p][i];
          assert m in partitions[p] && m in AllIn(partitions);
          if m.msgId == id { m.acked := true; }
        }
      }
    }

    method FilterPending(id: string)
      modifies this`pending
      ensures pending == WithoutId(old(pending), id)
    {
      var kept := [];
      ghost var gone := set m | m in pending && m.msgId == id;
      for i := 0 to |pending|
        invariant pending == old(pending) && kept == Excluding(pending[..i], gone)
      {
        assert pending[..i + 1] == pending[..i] + [pending[i]];
        ExcludingSnoc(pending[..i], pending[i], gone);
        assert pending[i] in pending;
        if pending[i].msgId != id { kept := kept + [pending[i]]; }
      }
      assert pending[..|pending|] == pending;
      pending := kept;
    }

    /** The commit callback. On a node with a store attached it is a step of the recovery machine, and
        it keeps the pending list an exact index of undelivered work. */
    method HandleCommit(entry: LogEntry)
      requires Valid()
      modifies this`partitions, this`pending, this`writes, this`used, AllIn(partitions)
      ensures Valid()
      ensures persistenceEnabled && old(PendingExact()) ==> PendingExact()
      ensures match entry.command
              case QueuePublish(id, _, p, payload, _) =>
                View() == Recovery.Published(old(View()), Spec.Msg(id, payload, p, false, 0))
              case QueueAck(id, _) => View() == Recovery.AckedEverywhere(old(View()), id)
              case _ => View() == old(View())
      ensures Durable() ==>
                match entry.command
                case QueuePublish(id, _, p, payload, _) =>
                  var step := Recovery.CommitPublish(Spec.Msg(id, payload, p, false, 0));
                  id !in old(used) ==> System() == Recovery.Apply(old(System()), step)
                case QueueAck(id, _) => System() == Recovery.Apply(old(System()), Recovery.CommitAck(id))
                case _ => System() == old(System())
    {
      hide Proper, Excluding, Exact, ViewOf, Recovery.Published, Recovery.AckedEverywhere;
      ghost var before := writes;
      match entry.command
      case QueuePublish(id, _, p, payload, _) =>
        var m := CommitPublish(entry.command);
        TasksJoin(before, [PersistMessage(m)]);
      case QueueAck(id, _) =>
        CommitAck(id);
        TasksJoin(before, [DeleteRecord(id)]);
      case _ =>
    }

    // -------------------------------------------------------------- consuming

    /** The unacknowledged messages of a partition, oldest first. */
    method Available(p: nat) returns (r: Messages)
      ensures r == Unacked(At(partitions, p))
      ensures View() == old(View())
    {
      r := [];
      var list := At(partitions, p);
      ghost var gone := set m | m in list && m.acked;
      for i := 0 to |list|
        invariant r == Excluding(list[..i], gone)
      {
        assert list[..i + 1] == list[..i] + [list[i]];
        ExcludingSnoc(list[..i], list[i], gone);
        assert list[i] in list;
        if !list[i].acked { r := r + [list[i]]; }
      }
      assert list[..|list|] == list;
    }

    /** Counts a delivery of each message and schedules its record. */
    method Deliver(messages: Messages)
      requires forall i, j | 0 <= i < j < |messages| :: messages[i] != messages[j]
      modifies this`writes, messages
      ensures forall m | m in messages :: m.deliveryCount == old(m.deliveryCount) + 1 && m.acked == old(m.acked)
      ensures writes == if Durable() then old(writes) + PersistEach(messages) else old(writes)
    {
      for i := 0 to |messages|
        invariant forall j | 0 <= j < |messages| ::
          messages[j].deliveryCount == old(messages[j].deliveryCount) + (if j < i then 1 else 0)
          && messages[j].acked == old(messages[j].acked)
        invariant writes == if Durable() then old(writes) + PersistEach(messages[..i]) else old(writes)
      {
        assert PersistEach(messages[..i + 1]) == PersistEach(messages[..i]) + [PersistMessage(messages[i])];
        messages[i].deliveryCount := messages[i].deliveryCount + 1;
        if persistenceEnabled { SchedulePersist(messages[i]); }
      }
      assert messages[..|messages|] == messages;
    }

    method Pick(p: nat, batch: int) returns (picked: Messages, ghost n: nat)
      requires Valid()
      ensures var here := Recovery.At(View(), p);
              && n == EffectiveBatch(batch, Spec.UnackedBefore(here, |here|))
              && picked == TakenOf(At(partitions, p), here, |At(partitions, p)|, n)
              && forall i | 0 <= i < |here| :: At(partitions, p)[i] in picked <==> Spec.Taken(here, i, n)
      ensures var here := Recovery.At(View(), p); |picked| == SliceLength(batch, Spec.UnackedBefore(here, |here|))
      ensures forall m | m in picked :: m in At(partitions, p) && m in AllIn(partitions)
      ensures forall i, j | 0 <= i < j < |picked| :: picked[i] != picked[j]
    {
      hide Excluding, TakenOf, Spec.Taken;
      ViewAt(partitions);
      ListIsInAll(partitions, p);
      var available := Available(p);
      n := EffectiveBatch(batch, |available|);
      picked := Take(available, EffectiveBatch(batch, |available|));
      PickedAreTaken(At(partitions, p), batch, picked, n);
    }

    /** The oldest unacknowledged messages of a partition, as many as the slice asks for. */
    method Consume(p: nat, batch: int) returns (messages: Messages)
      requires Valid()
      modifies this`writes, AllIn(partitions)
      ensures Valid() && partitions == old(partitions)
      ensures old(PendingExact()) ==> PendingExact()
      ensures var here := Recovery.At(old(View()), p);
              var n := EffectiveBatch(batch, Spec.UnackedBefore(here, |here|));
              && Values(messages) == Spec.Batch(here, |here|, n)
              && |messages| == SliceLength(batch, Spec.UnackedBefore(here, |here|))
              && View() == Recovery.ConsumedAt(old(View()), p, n)
              && (Durable() ==> System() == Recovery.Apply(old(System()), Recovery.Serve(p, n)))
    {
      hide Exact, IndexedBy, TakenOf, Spec.Batch, Spec.Taken, Recovery.ConsumedAt, Recovery.PersistAll, TasksOf, ViewOf,
           Proper;
      ghost var before := View();
      ghost var acked := set m | m in AllIn(partitions) && m.acked;
      ViewAt(partitions);
      ExactBySet(partitions, pending, acked);
      ghost var n;
      messages, n := Pick(p, batch);
      Deliver(messages);
      forall q, i | q in partitions && 0 <= i < |partitions[q]|
        ensures partitions[q][i].Value()
                == if partitions[q][i] in messages then Spec.Delivered(before[q][i]) else before[q][i]
      {
        assert partitions[q][i] in partitions[q] && partitions[q][i] in AllIn(partitions);
      }
      DeliveredView(partitions, before, p, messages, n);
      ExactBySet(partitions, pending, acked);
      PersistEachIsPersistAll(messages);
      TasksJoin(old(writes), PersistEach(messages));
    }

    // -------------------------------------------------------------- the store

    /** The message a write reads when it takes effect. */
    static ghost function Current(w: Write): Spec.Msg
      reads if w.PersistMessage? then {w.message} else {}
    {
      if w.PersistMessage? then w.message.Value() else Spec.Msg("", "", 0, false, 0)
    }

    /** The oldest scheduled write takes effect. */
    method RunWrite()
      requires Valid() && writes != []
      modifies this`writes, this`store
      ensures Valid()
      ensures var step := Recovery.Work(Current(old(writes[0])));
              && Recovery.Enabled(old(System()), step)
              && System() == Recovery.Apply(old(System()), step)
    {
      hide Proper;
      var w := writes[0];
      if w.PersistMessage? {
        WriteIsHeld(partitions, w.message);
        var m := w.message;
        store := store[m.msgId := Spec.Msg(m.msgId, m.payload, m.partitionId, m.acked, m.deliveryCount)];
      } else {
        store := store - {w.id};
      }
      writes := writes[1..];
    }

    /** Attaching a store loads it when persistence is on. */
    method SetPersistenceStore(present: bool, raws: seq<Spec.Msg>)
      requires Valid()
      modifies this`attached, this`partitions
      ensures Valid() && attached == present
      ensures View() == if persistenceEnabled && present then Recovery.LoadAll(old(View()), raws) else old(View())
    {
      attached := present;
      assert View() == old(View());
      if persistenceEnabled && attached { LoadPersisted(raws); }
    }

    /** Recovered messages join the partitions only: nothing is pending or scheduled for them. */
    method LoadPersisted(raws: seq<Spec.Msg>)
      requires Valid()
      modifies this`partitions
      ensures Valid()
      ensures View() == Recovery.LoadAll(old(View()), raws)
    {
      assert raws[..0] == [];
      for i := 0 to |raws|
        invariant Valid()
        invariant forall m | m in AllIn(partitions) :: fresh(m) || m in old(AllIn(partitions))
        invariant Recovery.LoadAll(View(), raws[i..]) == Recovery.LoadAll(old(View()), raws)
      {
        assert raws[i..][0] == raws[i] && raws[i..][1..] == raws[i + 1..];
        LoadRecord(raws[i]);
      }
      assert raws[|raws|..] == [];
    }

    method LoadRecord(raw: Spec.Msg)
      requires Valid()
      modifies this`partitions
      ensures Valid()
      ensures forall m | m in AllIn(partitions) :: fresh(m) || m in old(AllIn(partitions))
      ensures View() == Recovery.LoadOne(old(View()), raw)
    {
      if raw.acked { return; }
      hide Proper, ViewOf, AllIn, Recovery.HasId, Recovery.Published;
      Touch(raw.partition);
      var known := Knows(raw.partition, raw.id);
      if !known {
        AddRecovered(raw);
        TouchedThenPublished(old(View()), raw);
      }
    }

    /** Looking up a partition that is not there creates it, empty. */
    method Touch(p: nat)
      requires Valid()
      modifies this`partitions
      ensures Valid() && p in partitions && AllIn(partitions) == old(AllIn(partitions))
      ensures View() == old(View())[p := Recovery.At(old(View()), p)]
      ensures Values(partitions[p]) == Recovery.At(old(View()), p)
    {
      hide Proper, ViewOf;
      EmptyPartition(partitions, p);
      ViewAt(partitions);
      if p !in partitions { partitions := partitions[p := []]; }
    }

    method AddRecovered(raw: Spec.Msg)
      requires Valid() && !raw.acked && raw.partition in partitions
      modifies this`partitions
      ensures Valid()
      ensures forall m | m in AllIn(partitions) :: fresh(m) || m in old(AllIn(partitions))
      ensures View() == Recovery.Published(old(View()), raw)
    {
      hide Proper, ViewOf, Recovery.Published;
      ghost var lists := partitions;
      var p := raw.partition;
      var message := new QueueMessage(raw.id, raw.payload, p);
      message.deliveryCount := raw.deliveries;
      partitions := partitions[p := partitions[p] + [message]];
      AllInGrows(lists, message);
      PublishedProper(lists, message);
      PublishedView(lists, message);
      assert partitions == WithMessage(lists, message) && message.Value() == raw;
    }

    method Knows(p: nat, id: string) returns (known: bool)
      requires p in partitions
      ensures known <==> Recovery.HasId(Values(partitions[p]), id)
    {
      known := false;
      for i := 0 to |partitions[p]|
        invariant known <==> exists j | 0 <= j < i :: partitions[p][j].msgId == id
      {
        if partitions[p][i].msgId == id { known := true; }
      }
    }

    // -------------------------------------------------------------- reading

    method GetQueueDepth(p: nat) returns (depth: nat)
      ensures View() == old(View())
      ensures var here := Recovery.At(View(), p); depth == Spec.UnackedBefore(here, |here|)
    {
      var available := Available(p);
      depth := |available|;
      ghost var list := At(partitions, p);
      assert list[..|list|] == list;
      UnackedCount(list, (set m | m in list && m.acked), Values(list), |list|);
    }

    /** While the pending list is exact, the two totals agree. */
    method GetStats() returns (parts: nat, total: nat, unacked: nat, waiting: nat, ghost order: seq<nat>)
      ensures parts == |partitions| && waiting == |pending|
      ensures Enumerates(order, partitions.Keys)
      ensures total == TotalLength(View(), order) && unacked == TotalUnacked(View(), order)
      ensures PendingExact() ==> unacked == waiting
      ensures Valid() ==> total == |AllIn(partitions)| && unacked == |set m | m in AllIn(partitions) && !m.acked|
    {
      hide ViewOf, Exact, Enumerates, TotalLength, TotalUnacked;
      ghost var view := View();
      ViewAt(partitions);
      parts, total, unacked, waiting, order := |partitions|, 0, 0, |pending|, [];
      EmptyOrder(view);
      var rest := partitions.Keys;
      assert partitions.Keys - rest == {};
      while rest != {}
        invariant rest <= partitions.Keys && Enumerates(order, partitions.Keys - rest)
        invariant forall q | q in partitions :: |Recovery.At(view, q)| == |partitions[q]|
        invariant View() == view && total == TotalLength(view, order) && unacked == TotalUnacked(view, order)
        decreases rest
      {
        var p :| p in rest;
        EnumeratesStep(order, partitions.Keys, rest, p);
        rest := rest - {p};
        var depth := GetQueueDepth(p);
        total, unacked := total + |partitions[p]|, unacked + depth;
        TotalsStep(view, order, p);
        order := order + [p];
      }
      assert partitions.Keys - {} == partitions.Keys;
      if PendingExact() { TotalsAgree(partitions, pending, order); }
      if Valid() { TotalsAreNumbers(partitions, order); }
    }
  }

  /** Looking up a partition that is not there creates it, empty. */
  lemma EmptyPartition(lists: Lists, p: nat)
    ensures var more := lists[p := At(lists, p)];
            && AllIn(more) == AllIn(lists) && (Proper(lists) ==> Proper(more))
            && ViewOf(more) == ViewOf(lists)[p := Recovery.At(ViewOf(lists), p)]
  {
    var more := lists[p := At(lists, p)];
    forall m | m in AllIn(lists)
      ensures m in AllIn(more)
    {
      var q :| q in lists && m in lists[q];
      assert m in more[q];
    }
    assert Values([]) == [];
  }

  lemma TouchedThenPublished(parts: Recovery.Partitions, m: Spec.Msg)
    ensures Recovery.Published(parts[m.partition := Recovery.At(parts, m.partition)], m) == Recovery.Published(parts, m)
  {
  }

  lemma AllInGrows(lists: Lists, m: QueueMessage)
    ensures AllIn(WithMessage(lists, m)) == AllIn(lists) + {m}
  {
    var more := WithMessage(lists, m);
    forall x | x in AllIn(lists)
      ensures x in AllIn(more)
    {
      var p :| p in lists && x in lists[p];
      assert x in more[p];
    }
    assert m in more[m.partitionId];
  }

  /** A message in some partition list is held, by value, at its own partition. */
  lemma WriteIsHeld(lists: Lists, m: QueueMessage)
    requires Proper(lists) && m in AllIn(lists)
    ensures Recovery.Holds(ViewOf(lists), m.Value())
  {
  }
}
