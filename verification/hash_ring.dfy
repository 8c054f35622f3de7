/** The consistent hash ring: who owns a key, in which order nodes are met from it, and what adding
    or removing a node changes. The hash is an arbitrary function; collisions are allowed. */
module HashRings {
  import opened CoreTypes

  /** Where the `i`-th virtual node of a node lies, and where a key lies. */
  datatype Hashing = Hashing(virtualKey: (NodeId, nat) -> nat, key: string -> nat)

  type Ring = map<nat, NodeId>

  /** Where a node has its virtual nodes. */
  function Positions(h: Hashing, count: nat, n: NodeId): set<nat> {
    set i | 0 <= i < count :: h.virtualKey(n, i)
  }

  /** Nodes are placed in list order; on a collision the later one takes the position. */
  function RingOf(h: Hashing, count: nat, nodes: seq<NodeId>): Ring {
    if nodes == [] then map[]
    else
      var last := nodes[|nodes| - 1];
      RingOf(h, count, nodes[..|nodes| - 1]) + map p | p in Positions(h, count, last) :: last
  }

  predicate Ascending(s: seq<nat>) {
    forall i, j | 0 <= i < j < |s| :: s[i] < s[j]
  }

  predicate IsLeast(s: set<nat>, m: nat) {
    m in s && forall x | x in s :: m <= x
  }

  lemma {:induction false} LeastExists(s: set<nat>) returns (m: nat)
    requires s != {}
    ensures IsLeast(s, m)
  {
    var a :| a in s;
    if s == {a} {
      m := a;
    } else {
      var r := LeastExists(s - {a});
      m := if r < a then r else a;
      assert forall x | x in s :: x == a || x in s - {a};
    }
  }

  /** `sorted(keys)` */
  function SortedKeys(s: set<nat>): (r: seq<nat>)
    ensures forall x :: x in r <==> x in s
  {
    if s == {} then []
    else
      assert exists m | m in s :: IsLeast(s, m) by { var m := LeastExists(s); }
      var m :| m in s && IsLeast(s, m);
      [m] + SortedKeys(s - {m})
  }

  lemma {:induction false} SortedKeysAscend(s: set<nat>)
    ensures Ascending(SortedKeys(s))
  {
    if s != {} {
      var r := SortedKeys(s);
      var m :| m in s && IsLeast(s, m) && r == [m] + SortedKeys(s - {m});
      SortedKeysAscend(s - {m});
      SmallestFirst(m, SortedKeys(s - {m}));
    }
  }

  lemma SmallestFirst(m: nat, s: seq<nat>)
    requires Ascending(s) && forall x | x in s :: m < x
    ensures Ascending([m] + s)
  {
    var r := [m] + s;
    forall i, j | 0 <= i < j < |r|
      ensures r[i] < r[j]
    {
      assert r[j] == s[j - 1] && s[j - 1] in s;
    }
  }

  lemma AscendingTail(s: seq<nat>)
    requires s != [] && Ascending(s)
    ensures Ascending(s[1..])
    ensures forall x :: x in s[1..] <==> x in s && x != s[0]
  {
  }

  /** The same elements in ascending order are the same sequence. */
  lemma {:induction false} AscendingIsUnique(a: seq<nat>, b: seq<nat>)
    requires Ascending(a) && Ascending(b) && forall x :: x in a <==> x in b
    ensures a == b
  {
    assert b != [] ==> b[0] in a;
    if a != [] {
      assert a[0] in b;
      assert a[0] == b[0];
      AscendingTail(a);
      AscendingTail(b);
      AscendingIsUnique(a[1..], b[1..]);
      assert a == [a[0]] + a[1..] && b == [b[0]] + b[1..];
    }
  }

  // ---------------------------------------------------------------- walking clockwise

  /** The positions of `s` satisfying `keep`, in order. */
  function Filter<T(!new)>(s: seq<T>, keep: T -> bool): (r: seq<T>)
    ensures forall x :: x in r <==> x in s && keep(x)
  {
    if s == [] then []
    else
      var last := s[|s| - 1];
      var rest := Filter(s[..|s| - 1], keep);
      assert s == s[..|s| - 1] + [last];
      if keep(last) then rest + [last] else rest
  }

  function From(s: seq<nat>, start: nat): seq<nat> {
    Filter(s, x => x >= start)
  }

  function Before(s: seq<nat>, start: nat): seq<nat> {
    Filter(s, x => x < start)
  }

  /** All positions, clockwise from `start`. */
  function Walk(sortedKeys: seq<nat>, start: nat): seq<nat> {
    From(sortedKeys, start) + Before(sortedKeys, start)
  }

  function OwnersAlong(ring: Ring, positions: seq<nat>): (r: seq<NodeId>)
    requires forall p | p in positions :: p in ring
    ensures |r| == |positions| && forall i | 0 <= i < |r| :: r[i] == ring[positions[i]]
  {
    seq(|positions|, i requires 0 <= i < |positions| => ring[positions[i]])
  }

  /** First occurrences only, in order. */
  function Firsts<T(==, !new)>(s: seq<T>): (r: seq<T>)
    ensures forall x :: x in r <==> x in s
    ensures forall i, j | 0 <= i < j < |r| :: r[i] != r[j]
  {
    if s == [] then []
    else
      var last := s[|s| - 1];
      var rest := Firsts(s[..|s| - 1]);
      assert s == s[..|s| - 1] + [last];
      if last in rest then rest else rest + [last]
  }

  /** The distinct nodes met walking clockwise from `start`. */
  ghost function Order(ring: Ring, start: nat): seq<NodeId> {
    WalkIsOnRing(ring, start);
    Firsts(OwnersAlong(ring, Walk(SortedKeys(ring.Keys), start)))
  }

  lemma WalkIsOnRing(ring: Ring, start: nat)
    ensures forall p :: p in Walk(SortedKeys(ring.Keys), start) <==> p in ring
  {
  }

  function Take<T>(s: seq<T>, count: int): seq<T> {
    if count <= 0 then [] else if count >= |s| then s else s[..count]
  }

  // ---------------------------------------------------------------- sequences

  lemma FilterSnoc<T(!new)>(s: seq<T>, x: T, keep: T -> bool)
    ensures Filter(s + [x], keep) == Filter(s, keep) + if keep(x) then [x] else []
  {
  }

  lemma {:induction false} FilterConcat<T(!new)>(a: seq<T>, b: seq<T>, keep: T -> bool)
    ensures Filter(a + b, keep) == Filter(a, keep) + Filter(b, keep)
  {
    if b == [] {
      assert a + b == a;
    } else {
      var n := |b| - 1;
      assert (a + b)[..|a + b| - 1] == a + b[..n];
      FilterConcat(a, b[..n], keep);
    }
  }

  lemma FirstsSnoc<T(!new)>(s: seq<T>, x: T)
    ensures Firsts(s + [x]) == if x in s then Firsts(s) else Firsts(s) + [x]
  {
  }

  lemma {:induction false} FirstsGrow<T(!new)>(a: seq<T>, b: seq<T>)
    ensures Firsts(a) <= Firsts(a + b)
  {
    if b == [] {
      assert a + b == a;
    } else {
      var n := |b| - 1;
      assert a + b == (a + b[..n]) + [b[n]];
      FirstsSnoc(a + b[..n], b[n]);
      FirstsGrow(a, b[..n]);
    }
  }

  /** Meeting only nodes met before changes nothing. */
  lemma {:induction false} FirstsAbsorb<T(!new)>(a: seq<T>, b: seq<T>)
    requires forall x | x in b :: x in a
    ensures Firsts(a + b) == Firsts(a)
  {
    if b == [] {
      assert a + b == a;
    } else {
      var n := |b| - 1;
      assert a + b == (a + b[..n]) + [b[n]];
      FirstsSnoc(a + b[..n], b[n]);
      FirstsAbsorb(a, b[..n]);
    }
  }

  lemma {:induction false} FirstsCount<T(!new)>(s: seq<T>)
    ensures |Firsts(s)| == |set x | x in s|
  {
    if s != [] {
      var n := |s| - 1;
      FirstsCount(s[..n]);
      assert s == s[..n] + [s[n]];
      var all, fewer := set x | x in s, set x | x in s[..n];
      assert all == fewer + {s[n]};
      assert s[n] in fewer <==> s[n] in s[..n];
      if s[n] !in fewer {
        assert |all| == |fewer| + 1;
      } else {
        assert all == fewer;
      }
    }
  }

  lemma {:induction false} FirstsOfFilter<T(!new)>(s: seq<T>, keep: T -> bool)
    ensures Firsts(Filter(s, keep)) == Filter(Firsts(s), keep)
  {
    if s != [] {
      var n := |s| - 1;
      var init, x := s[..n], s[n];
      assert s == init + [x];
      FirstsOfFilter(init, keep);
      FilterSnoc(init, x, keep);
      FirstsSnoc(init, x);
      if keep(x) { FirstsSnoc(Filter(init, keep), x); }
      if x !in init {
        FilterSnoc(Firsts(init), x, keep);
      } else {
        assert Filter(init, keep) + [] == Filter(init, keep);
      }
    }
  }

  lemma FirstsHead<T(!new)>(s: seq<T>)
    requires s != []
    ensures Firsts(s) != [] && Firsts(s)[0] == s[0]
  {
  }

  // ---------------------------------------------------------------- positions and owners

  /** The position a key belongs to: the first one at or after it, or else the first of all. */
  predicate IsHome(keys: set<nat>, start: nat, p: nat) {
    p in keys &&
    if exists q :: q in keys && q >= start
    then p >= start && forall q | q in keys && q >= start :: p <= q
    else forall q | q in keys :: p <= q
  }

  lemma HomeIsUnique(keys: set<nat>, start: nat, p: nat, q: nat)
    requires IsHome(keys, start, p) && IsHome(keys, start, q)
    ensures p == q
  {
  }

  lemma LargestLast(s: seq<nat>, m: nat)
    requires Ascending(s) && forall x | x in s :: x < m
    ensures Ascending(s + [m])
  {
    var r := s + [m];
    forall i, j | 0 <= i < j < |r|
      ensures r[i] < r[j]
    {
      assert r[i] == s[i] && s[i] in s;
    }
  }

  lemma {:induction false} FilterAscends(s: seq<nat>, keep: nat -> bool)
    requires Ascending(s)
    ensures Ascending(Filter(s, keep))
  {
    if s != [] {
      var n := |s| - 1;
      FilterAscends(s[..n], keep);
      forall x | x in Filter(s[..n], keep)
        ensures x < s[n]
      {
        var i :| 0 <= i < n && s[..n][i] == x;
      }
      LargestLast(Filter(s[..n], keep), s[n]);
    }
  }

  lemma FromStartsAtHome(keys: set<nat>, s: seq<nat>, start: nat)
    requires Ascending(s) && forall x :: x in s <==> x in keys && x >= start
    requires s != []
    ensures IsHome(keys, start, s[0])
  {
  }

  lemma WrapStartsAtHome(keys: set<nat>, s: seq<nat>, start: nat)
    requires Ascending(s) && forall x :: x in s <==> x in keys
    requires s != [] && forall x | x in keys :: x < start
    ensures IsHome(keys, start, s[0])
  {
  }

  /** A walk starts at the key's home. */
  lemma WalkStartsAtHome(ring: Ring, start: nat)
    requires ring != map[]
    ensures var w := Walk(SortedKeys(ring.Keys), start); w != [] && IsHome(ring.Keys, start, w[0])
  {
    hide IsHome, Ascending, SortedKeys, Filter;
    var keys := SortedKeys(ring.Keys);
    SortedKeysAscend(ring.Keys);
    FilterAscends(keys, x => x >= start);
    FilterAscends(keys, x => x < start);
    var some :| some in ring;
    if From(keys, start) != [] {
      FromStartsAtHome(ring.Keys, From(keys, start), start);
    } else {
      assert forall q | q in ring.Keys :: q !in From(keys, start) && q in Before(keys, start);
      assert some in Before(keys, start);
      WrapStartsAtHome(ring.Keys, Before(keys, start), start);
      assert Walk(keys, start) == Before(keys, start);
    }
  }

  /** The first node met is the owner of the key's home. */
  lemma OwnerIsFirst(ring: Ring, start: nat, p: nat)
    requires IsHome(ring.Keys, start, p)
    ensures Order(ring, start) != [] && Order(ring, start)[0] == ring[p]
  {
    WalkStartsAtHome(ring, start);
    var w := Walk(SortedKeys(ring.Keys), start);
    HomeIsUnique(ring.Keys, start, p, w[0]);
    WalkIsOnRing(ring, start);
    FirstsHead(OwnersAlong(ring, w));
  }

  /** The order names each node on the ring once. */
  lemma OrderIsComplete(ring: Ring, start: nat)
    ensures |Order(ring, start)| == |ring.Values|
    ensures forall n :: n in Order(ring, start) <==> n in ring.Values
    ensures forall i, j | 0 <= i < j < |Order(ring, start)| :: Order(ring, start)[i] != Order(ring, start)[j]
  {
    WalkIsOnRing(ring, start);
    var w := Walk(SortedKeys(ring.Keys), start);
    var owners := OwnersAlong(ring, w);
    FirstsCount(owners);
    forall n
      ensures n in owners <==> n in ring.Values
    {
      if n in owners {
        var i :| 0 <= i < |owners| && owners[i] == n;
        assert ring[w[i]] == n && w[i] in w;
      }
      if n in ring.Values {
        var p :| p in ring && ring[p] == n;
        assert p in w;
        var i :| 0 <= i < |w| && w[i] == p;
        assert owners[i] == n;
      }
    }
    assert (set x | x in owners) == ring.Values;
  }

  lemma {:induction false} LastHolds(h: Hashing, count: nat, nodes: seq<NodeId>, p: nat)
    ensures p in RingOf(h, count, nodes) <==> exists k | 0 <= k < |nodes| :: p in Positions(h, count, nodes[k])
    ensures forall k | 0 <= k < |nodes| && p in Positions(h, count, nodes[k])
                       && forall j | k < j < |nodes| :: p !in Positions(h, count, nodes[j]) ::
              p in RingOf(h, count, nodes) && RingOf(h, count, nodes)[p] == nodes[k]
  {
    hide Positions;
    if nodes != [] {
      var n := |nodes| - 1;
      LastHolds(h, count, nodes[..n], p);
      assert forall j | 0 <= j < n :: nodes[..n][j] == nodes[j];
      if p !in Positions(h, count, nodes[n]) {
        assert p in RingOf(h, count, nodes) <==> p in RingOf(h, count, nodes[..n]);
      }
    }
  }

  lemma IsPosition(h: Hashing, count: nat, n: NodeId, p: nat)
    ensures p in Positions(h, count, n) <==> exists i | 0 <= i < count :: h.virtualKey(n, i) == p
  {
  }

  /** A position on the ring belongs to the last node, in list order, one of whose virtual nodes, numbered
      from 0 up to the count, lies there. */
  lemma LastPlacedOwns(h: Hashing, count: nat, nodes: seq<NodeId>, p: nat)
    ensures p in RingOf(h, count, nodes) <==>
              exists k, i | 0 <= k < |nodes| && 0 <= i < count :: h.virtualKey(nodes[k], i) == p
    ensures forall k, i | 0 <= k < |nodes| && 0 <= i < count && h.virtualKey(nodes[k], i) == p
                          && forall l, j | k < l < |nodes| && 0 <= j < count :: h.virtualKey(nodes[l], j) != p ::
              p in RingOf(h, count, nodes) && RingOf(h, count, nodes)[p] == nodes[k]
  {
    hide Positions, RingOf;
    LastHolds(h, count, nodes, p);
    forall k | 0 <= k < |nodes|
      ensures p in Positions(h, count, nodes[k]) <==> exists i | 0 <= i < count :: h.virtualKey(nodes[k], i) == p
    {
      IsPosition(h, count, nodes[k], p);
    }
  }

  // ---------------------------------------------------------------- clockwise

  /** Walking clockwise from `start`, `p` is met before `q`. */
  predicate Ahead(start: nat, p: nat, q: nat) {
    if p >= start then q < start || p < q else p < q < start
  }

  lemma WalkIsClockwise(keys: seq<nat>, start: nat)
    requires Ascending(keys)
    ensures forall i, j | 0 <= i < j < |Walk(keys, start)| :: Ahead(start, Walk(keys, start)[i], Walk(keys, start)[j])
  {
    hide Filter;
    var f, b := From(keys, start), Before(keys, start);
    FilterAscends(keys, x => x >= start);
    FilterAscends(keys, x => x < start);
    Sides(keys, start);
  }

  lemma Sides(keys: seq<nat>, start: nat)
    ensures forall i | 0 <= i < |From(keys, start)| :: From(keys, start)[i] >= start
    ensures forall i | 0 <= i < |Before(keys, start)| :: Before(keys, start)[i] < start
  {
    var f, b := From(keys, start), Before(keys, start);
    forall i | 0 <= i < |f| ensures f[i] >= start { assert f[i] in f; }
    forall i | 0 <= i < |b| ensures b[i] < start { assert b[i] in b; }
  }

  /** Of two first occurrences, the one that comes first in the result comes first in the sequence. */
  lemma {:induction false} FirstsInOrder<T(!new)>(s: seq<T>, i: nat, j: nat) returns (a: nat)
    requires i < j < |Firsts(s)|
    ensures a < |s| && s[a] == Firsts(s)[i] && forall b | 0 <= b < |s| && s[b] == Firsts(s)[j] :: a < b
  {
    var n := |s| - 1;
    assert s == s[..n] + [s[n]];
    if j < |Firsts(s[..n])| {
      a := FirstsInOrder(s[..n], i, j);
    } else {
      assert Firsts(s)[i] in Firsts(s[..n]) && Firsts(s)[i] in s[..n];
      a :| 0 <= a < n && s[..n][a] == Firsts(s)[i];
    }
  }

  /** The order is clockwise: of two nodes in it, the earlier one has a position that is met before every
      position of the later one. With `OrderIsComplete`, this leaves one order only. */
  lemma OrderIsClockwise(ring: Ring, start: nat, i: nat, j: nat) returns (p: nat)
    requires i < j < |Order(ring, start)|
    ensures p in ring && ring[p] == Order(ring, start)[i]
    ensures forall q | q in ring && ring[q] == Order(ring, start)[j] :: Ahead(start, p, q)
  {
    hide Firsts, Walk, SortedKeys;
    WalkIsOnRing(ring, start);
    SortedKeysAscend(ring.Keys);
    WalkIsClockwise(SortedKeys(ring.Keys), start);
    var w := Walk(SortedKeys(ring.Keys), start);
    var a := FirstsInOrder(OwnersAlong(ring, w), i, j);
    p := w[a];
    assert p in w;
    forall q | q in ring && ring[q] == Order(ring, start)[j]
      ensures Ahead(start, p, q)
    {
      assert q in w;
      var b :| 0 <= b < |w| && w[b] == q;
      assert OwnersAlong(ring, w)[b] == Order(ring, start)[j];
    }
  }

  // ---------------------------------------------------------------- adding and removing nodes

  /** `list.remove`: the first occurrence goes. */
  function Removed(nodes: seq<NodeId>, n: NodeId): seq<NodeId> {
    if nodes == [] then []
    else if nodes[0] == n then nodes[1..]
    else [nodes[0]] + Removed(nodes[1..], n)
  }

  lemma {:induction false} FirstOccurrenceGoes(before: seq<NodeId>, n: NodeId, after: seq<NodeId>)
    requires n !in before
    ensures Removed(before + [n] + after, n) == before + after
  {
    if before == [] {
      assert before + [n] + after == [n] + after && ([n] + after)[1..] == after && before + after == after;
    } else {
      assert (before + [n] + after)[1..] == before[1..] + [n] + after;
      FirstOccurrenceGoes(before[1..], n, after);
      assert before + after == [before[0]] + (before[1..] + after);
    }
  }

  predicate NoDuplicates(nodes: seq<NodeId>) {
    forall i, j | 0 <= i < j < |nodes| :: nodes[i] != nodes[j]
  }

  lemma {:induction false} RemovedFromInit(nodes: seq<NodeId>, n: NodeId)
    requires nodes != [] && NoDuplicates(nodes)
    ensures var k := |nodes| - 1;
            Removed(nodes, n) == if nodes[k] == n then nodes[..k] else Removed(nodes[..k], n) + [nodes[k]]
  {
    var k := |nodes| - 1;
    if nodes[0] == n {
      if k > 0 { assert nodes[1..] == nodes[..k][1..] + [nodes[k]]; }
    } else if k > 0 {
      RemovedFromInit(nodes[1..], n);
      assert nodes[1..][..k - 1] == nodes[..k][1..];
      assert [nodes[0]] + nodes[1..][..k - 1] == nodes[..k];
    }
  }

  /** After a removal the positions of the other nodes are still theirs, and no position is new. */
  lemma {:induction false} RemovalKeepsOthers(h: Hashing, count: nat, nodes: seq<NodeId>, n: NodeId)
    requires NoDuplicates(nodes)
    ensures var ring, ring' := RingOf(h, count, nodes), RingOf(h, count, Removed(nodes, n));
            && ring'.Keys <= ring.Keys
            && forall p | p in ring && ring[p] != n :: p in ring' && ring'[p] == ring[p]
  {
    if nodes != [] {
      var k := |nodes| - 1;
      RemovedFromInit(nodes, n);
      RemovalKeepsOthers(h, count, nodes[..k], n);
      if nodes[k] != n {
        var rest := Removed(nodes[..k], n);
        assert (rest + [nodes[k]])[..|rest|] == rest;
      }
    }
  }

  lemma HomeSurvives(keys: set<nat>, fewer: set<nat>, start: nat, p: nat)
    requires IsHome(keys, start, p) && fewer <= keys && p in fewer
    ensures IsHome(fewer, start, p)
  {
  }

  /** Removing a node changes the owner of no key it did not own, collisions or not. */
  lemma RemovalDisturbsOnlyItsKeys(h: Hashing, count: nat, nodes: seq<NodeId>, n: NodeId, key: string)
    requires NoDuplicates(nodes)
    requires var before := Order(RingOf(h, count, nodes), h.key(key)); before != [] && before[0] != n
    ensures var before := Order(RingOf(h, count, nodes), h.key(key));
            var after := Order(RingOf(h, count, Removed(nodes, n)), h.key(key));
            after != [] && after[0] == before[0]
  {
    hide Order, Removed, RingOf;
    var start := h.key(key);
    var ring, ring' := RingOf(h, count, nodes), RingOf(h, count, Removed(nodes, n));
    OrderIsComplete(ring, start);
    WalkStartsAtHome(ring, start);
    var p := Walk(SortedKeys(ring.Keys), start)[0];
    OwnerIsFirst(ring, start, p);
    RemovalKeepsOthers(h, count, nodes, n);
    HomeSurvives(ring.Keys, ring'.Keys, start, p);
    OwnerIsFirst(ring', start, p);
  }

  /** After a node is added, every key belongs to its old owner or to the new node. */
  lemma AdditionTakesOnlyForItself(h: Hashing, count: nat, nodes: seq<NodeId>, n: NodeId, key: string)
    requires RingOf(h, count, nodes) != map[]
    ensures var before := Order(RingOf(h, count, nodes), h.key(key));
            var after := Order(RingOf(h, count, nodes + [n]), h.key(key));
            before != [] && after != [] && (after[0] == before[0] || after[0] == n)
  {
    hide Order;
    var start := h.key(key);
    var ring, ring' := RingOf(h, count, nodes), RingOf(h, count, nodes + [n]);
    assert (nodes + [n])[..|nodes|] == nodes;
    assert ring.Keys <= ring'.Keys;
    WalkStartsAtHome(ring, start);
    WalkStartsAtHome(ring', start);
    var p, p' := Walk(SortedKeys(ring.Keys), start)[0], Walk(SortedKeys(ring'.Keys), start)[0];
    OwnerIsFirst(ring, start, p);
    OwnerIsFirst(ring', start, p');
    if ring'[p'] != n {
      HomeSurvives(ring'.Keys, ring.Keys, start, p');
      HomeIsUnique(ring.Keys, start, p, p');
    }
  }

  // ---------------------------------------------------------------- replica order

  /** Different nodes have no virtual node at the same position. */
  predicate NoSharedPositions(h: Hashing, count: nat, nodes: seq<NodeId>) {
    forall m, n | m in nodes && n in nodes && m != n :: Positions(h, count, m) !! Positions(h, count, n)
  }

  lemma {:induction false} OwnerHasPosition(h: Hashing, count: nat, nodes: seq<NodeId>, p: nat)
    requires p in RingOf(h, count, nodes)
    ensures RingOf(h, count, nodes)[p] in nodes && p in Positions(h, count, RingOf(h, count, nodes)[p])
  {
    if nodes != [] {
      var k := |nodes| - 1;
      if p !in Positions(h, count, nodes[k]) { OwnerHasPosition(h, count, nodes[..k], p); }
    }
  }

  lemma {:induction false} RemovedMembers(nodes: seq<NodeId>, n: NodeId)
    requires NoDuplicates(nodes)
    ensures forall m :: m in Removed(nodes, n) <==> m in nodes && m != n
  {
    if nodes != [] {
      assert nodes == [nodes[0]] + nodes[1..];
      if nodes[0] != n { RemovedMembers(nodes[1..], n); }
    }
  }

  /** Without shared positions, a removal takes away exactly the node's own positions. */
  lemma RemovalTakesOwnPositions(h: Hashing, count: nat, nodes: seq<NodeId>, n: NodeId)
    requires NoDuplicates(nodes) && NoSharedPositions(h, count, nodes)
    ensures var ring := RingOf(h, count, nodes);
            RingOf(h, count, Removed(nodes, n)) == map p | p in ring && ring[p] != n :: ring[p]
  {
    hide RingOf, Removed, Positions;
    var ring, ring' := RingOf(h, count, nodes), RingOf(h, count, Removed(nodes, n));
    RemovalKeepsOthers(h, count, nodes, n);
    RemovedMembers(nodes, n);
    forall p | p in ring'
      ensures p in ring && ring[p] != n
    {
      OwnerHasPosition(h, count, Removed(nodes, n), p);
      OwnerHasPosition(h, count, nodes, p);
    }
  }

  lemma {:induction false} FiltersCommute(s: seq<nat>, start: nat, keep: nat -> bool)
    ensures From(Filter(s, keep), start) == Filter(From(s, start), keep)
    ensures Before(Filter(s, keep), start) == Filter(Before(s, start), keep)
  {
    if s != [] {
      var n := |s| - 1;
      FiltersCommute(s[..n], start, keep);
      if keep(s[n]) {
        FilterSnoc(Filter(s[..n], keep), s[n], x => x >= start);
        FilterSnoc(Filter(s[..n], keep), s[n], x => x < start);
      }
      if s[n] >= start {
        FilterSnoc(From(s[..n], start), s[n], keep);
      } else {
        FilterSnoc(Before(s[..n], start), s[n], keep);
      }
    }
  }

  lemma {:induction false} OwnersOfFiltered(ring: Ring, ring': Ring, w: seq<nat>, keep: nat -> bool,
                                            keepNode: NodeId -> bool)
    requires forall p | p in w :: p in ring
    requires forall p | p in ring :: (keep(p) <==> keepNode(ring[p])) && (keep(p) ==> p in ring' && ring'[p] == ring[p])
    ensures (forall p | p in Filter(w, keep) :: p in ring')
            && OwnersAlong(ring', Filter(w, keep)) == Filter(OwnersAlong(ring, w), keepNode)
  {
    if w != [] {
      var n := |w| - 1;
      assert w == w[..n] + [w[n]];
      OwnersOfFiltered(ring, ring', w[..n], keep, keepNode);
      assert OwnersAlong(ring, w) == OwnersAlong(ring, w[..n]) + [ring[w[n]]];
      FilterSnoc(OwnersAlong(ring, w[..n]), ring[w[n]], keepNode);
      if keep(w[n]) {
        var kept := Filter(w[..n], keep);
        assert OwnersAlong(ring', kept + [w[n]]) == OwnersAlong(ring', kept) + [ring'[w[n]]];
      }
    }
  }

  /** The walk on the smaller ring is the old walk without the positions that went. */
  lemma FilteredWalk(ring: Ring, ring': Ring, start: nat, keep: nat -> bool)
    requires forall p :: p in ring' <==> p in ring && keep(p)
    ensures Walk(SortedKeys(ring'.Keys), start) == Filter(Walk(SortedKeys(ring.Keys), start), keep)
  {
    var keys := SortedKeys(ring.Keys);
    SortedKeysAscend(ring.Keys);
    SortedKeysAscend(ring'.Keys);
    FilterAscends(keys, keep);
    AscendingIsUnique(SortedKeys(ring'.Keys), Filter(keys, keep));
    FiltersCommute(keys, start, keep);
    FilterConcat(From(keys, start), Before(keys, start), keep);
  }

  lemma FilteredOrder(ring: Ring, ring': Ring, start: nat, keep: nat -> bool, keepNode: NodeId -> bool)
    requires forall p: nat :: p in ring' <==> p in ring && keep(p)
    requires forall p | p in ring :: (keep(p) <==> keepNode(ring[p])) && (keep(p) ==> p in ring' && ring'[p] == ring[p])
    ensures Order(ring', start) == Filter(Order(ring, start), keepNode)
  {
    hide Filter, Firsts, Walk, SortedKeys;
    FilteredWalk(ring, ring', start, keep);
    WalkIsOnRing(ring, start);
    WalkIsOnRing(ring', start);
    var w := Walk(SortedKeys(ring.Keys), start);
    OwnersOfFiltered(ring, ring', w, keep, keepNode);
    FirstsOfFilter(OwnersAlong(ring, w), keepNode);
  }

  /** Without shared positions, the order in which nodes are met from any key after a removal is the
      old order with the removed node dropped. */
  lemma RemovalDropsFromOrder(h: Hashing, count: nat, nodes: seq<NodeId>, n: NodeId, key: string)
    requires NoDuplicates(nodes) && NoSharedPositions(h, count, nodes)
    ensures Order(RingOf(h, count, Removed(nodes, n)), h.key(key))
            == Filter(Order(RingOf(h, count, nodes), h.key(key)), m => m != n)
  {
    hide RingOf, Removed, Filter, Order, NoSharedPositions, NoDuplicates;
    var ring, ring' := RingOf(h, count, nodes), RingOf(h, count, Removed(nodes, n));
    RemovalTakesOwnPositions(h, count, nodes, n);
    var keep: nat -> bool := p => p in ring && ring[p] != n;
    assert forall p: nat :: keep(p) <==> p in ring && ring[p] != n;
    FilteredOrder(ring, ring', h.key(key), keep, m => m != n);
  }

  lemma FirstIsOwner(ring: Ring, start: nat)
    requires ring != map[]
    ensures Order(ring, start) != []
    ensures forall p | p in ring && IsHome(ring.Keys, start, p) :: Order(ring, start)[0] == ring[p]
  {
    hide Order, IsHome;
    WalkStartsAtHome(ring, start);
    OwnerIsFirst(ring, start, Walk(SortedKeys(ring.Keys), start)[0]);
    forall p | p in ring && IsHome(ring.Keys, start, p)
      ensures Order(ring, start)[0] == ring[p]
    {
      OwnerIsFirst(ring, start, p);
    }
  }

  /** Replicas are distinct, as many as asked for or as there are nodes, those for a smaller count
      come first among those for a larger one, and the owner of the key is the first. */
  lemma ReplicasAreTheFirstNodes(ring: Ring, start: nat, count: nat, more: nat)
    requires count <= more
    ensures var r := Take(Order(ring, start), count);
            && |r| == (if count <= |ring.Values| then count else |ring.Values|)
            && (forall i, j | 0 <= i < j < |r| :: r[i] != r[j])
            && r <= Take(Order(ring, start), more)
            && (count >= 1 && ring != map[] ==>
                  r != [] && forall p | p in ring && IsHome(ring.Keys, start, p) :: r[0] == ring[p])
  {
    hide Order, IsHome;
    OrderIsComplete(ring, start);
    if ring != map[] { FirstIsOwner(ring, start); }
  }

  // ---------------------------------------------------------------- the ring object

  lemma {:induction false} NothingFrom(s: seq<nat>, start: nat)
    requires forall i | 0 <= i < |s| :: s[i] < start
    ensures From(s, start) == []
  {
    if s != [] { NothingFrom(s[..|s| - 1], start); }
  }

  lemma {:induction false} SplitsAt(s: seq<nat>, start: nat)
    requires Ascending(s)
    ensures s == Before(s, start) + From(s, start)
  {
    if s != [] {
      var n := |s| - 1;
      assert s == s[..n] + [s[n]];
      SplitsAt(s[..n], start);
      if s[n] < start {
        assert forall i | 0 <= i < n :: s[..n][i] < start;
        NothingFrom(s[..n], start);
      }
    }
  }

  lemma OwnersConcat(ring: Ring, a: seq<nat>, b: seq<nat>)
    requires (forall p | p in a :: p in ring) && forall p | p in b :: p in ring
    ensures OwnersAlong(ring, a + b) == OwnersAlong(ring, a) + OwnersAlong(ring, b)
  {
  }
}
