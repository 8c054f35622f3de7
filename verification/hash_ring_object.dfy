/** The ring as the object it is, rebuilt in place and searched by loops. */
module HashRingObjects {
  import opened CoreTypes
  import opened HashRings

  /** `list[:count]`, negative counts included. */
  function Slice<T>(s: seq<T>, count: int): seq<T> {
    if count >= 0 then Take(s, count) else Take(s, |s| + count)
  }

  // ---------------------------------------------------------------- meeting nodes one by one

  lemma MeetNothing(ring: Ring, start: nat)
    ensures From([], start) == [] && Firsts(OwnersAlong(ring, [])) == []
  {
  }

  lemma PassOne(ring: Ring, met: seq<nat>, p: nat)
    requires p in ring && forall q | q in met :: q in ring
    ensures Firsts(OwnersAlong(ring, met + [p]))
            == Firsts(OwnersAlong(ring, met)) + if ring[p] in Firsts(OwnersAlong(ring, met)) then [] else [ring[p]]
  {
    assert OwnersAlong(ring, met + [p]) == OwnersAlong(ring, met) + [ring[p]];
    FirstsSnoc(OwnersAlong(ring, met), ring[p]);
  }

  lemma MeetOne(ring: Ring, keys: seq<nat>, p: nat, start: nat)
    requires p in ring && forall q | q in From(keys, start) :: q in ring
    ensures forall q | q in From(keys + [p], start) :: q in ring
    ensures var met := Firsts(OwnersAlong(ring, From(keys, start)));
            Firsts(OwnersAlong(ring, From(keys + [p], start)))
            == met + if p < start || ring[p] in met then [] else [ring[p]]
  {
    hide Firsts, OwnersAlong;
    FilterSnoc(keys, p, x => x >= start);
    if p >= start {
      PassOne(ring, From(keys, start), p);
    } else {
      assert From(keys + [p], start) == From(keys, start);
    }
  }

  lemma GrowAlong(ring: Ring, a: seq<nat>, b: seq<nat>)
    requires (forall p | p in a :: p in ring) && forall p | p in b :: p in ring
    ensures (forall p | p in a + b :: p in ring)
            && Firsts(OwnersAlong(ring, a)) <= Firsts(OwnersAlong(ring, a + b))
  {
    OwnersConcat(ring, a, b);
    FirstsGrow(OwnersAlong(ring, a), OwnersAlong(ring, b));
  }

  /** Passing positions passed before meets nobody new. */
  lemma AbsorbAlong(ring: Ring, a: seq<nat>, b: seq<nat>)
    requires (forall p | p in a :: p in ring) && forall p | p in b :: p in a
    ensures (forall p | p in a + b :: p in ring)
            && Firsts(OwnersAlong(ring, a + b)) == Firsts(OwnersAlong(ring, a))
  {
    OwnersConcat(ring, a, b);
    forall n | n in OwnersAlong(ring, b)
      ensures n in OwnersAlong(ring, a)
    {
      var j :| 0 <= j < |b| && OwnersAlong(ring, b)[j] == n;
      assert b[j] in b && b[j] in a;
      var i :| 0 <= i < |a| && a[i] == b[j];
      assert OwnersAlong(ring, a)[i] == n;
    }
    FirstsAbsorb(OwnersAlong(ring, a), OwnersAlong(ring, b));
  }

  /** Passing all keys, after those from the start on, meets what the whole walk meets. */
  lemma AllKeysCompleteWalk(ring: Ring, keys: seq<nat>, start: nat, i: nat)
    requires Ascending(keys) && i <= |keys| && forall p | p in keys :: p in ring
    ensures var met, walk := From(keys, start) + keys[..i], Walk(keys, start);
            && (forall p | p in met :: p in ring) && (forall p | p in walk :: p in ring)
            && Firsts(OwnersAlong(ring, met)) <= Firsts(OwnersAlong(ring, walk))
            && (i == |keys| ==> Firsts(OwnersAlong(ring, met)) == Firsts(OwnersAlong(ring, walk)))
  {
    hide Firsts, Filter, OwnersAlong;
    var f, b := From(keys, start), Before(keys, start);
    SplitsAt(keys, start);
    AbsorbAlong(ring, f + b, f);
    assert f + keys == (f + b) + f;
    assert keys[..|keys|] == keys == keys[..i] + keys[i..];
    assert f + keys == (f + keys[..i]) + keys[i..];
    GrowAlong(ring, f + keys[..i], keys[i..]);
  }

  lemma FirstIsHome(keys: set<nat>, s: seq<nat>, start: nat, i: nat)
    requires Ascending(s) && (forall x :: x in s <==> x in keys) && i < |s|
    requires s[i] >= start && forall j | 0 <= j < i :: s[j] < start
    ensures IsHome(keys, start, s[i])
  {
  }

  function Placed(ring: Ring, h: Hashing, count: nat, node: NodeId): Ring {
    ring + map p | p in Positions(h, count, node) :: node
  }

  lemma PlacedNone(ring: Ring, h: Hashing, node: NodeId)
    ensures Placed(ring, h, 0, node) == ring
  {
  }

  lemma PlacedOne(ring: Ring, h: Hashing, i: nat, node: NodeId)
    ensures Placed(ring, h, i + 1, node) == Placed(ring, h, i, node)[h.virtualKey(node, i) := node]
  {
    assert Positions(h, i + 1, node) == Positions(h, i, node) + {h.virtualKey(node, i)};
  }

  class ConsistentHashRing {
    const hashing: Hashing
    const virtualNodes: nat
    var nodes: seq<NodeId>
    var ring: Ring
    var sortedKeys: seq<nat>

    ghost predicate Valid()
      reads this
    {
      ring == RingOf(hashing, virtualNodes, nodes) && sortedKeys == SortedKeys(ring.Keys)
    }

    constructor (hashing: Hashing, nodes: seq<NodeId>, virtualNodes: nat)
      ensures Valid() && this.hashing == hashing && this.virtualNodes == virtualNodes && this.nodes == nodes
    {
      this.hashing, this.virtualNodes, this.nodes := hashing, virtualNodes, nodes;
      ring, sortedKeys := map[], [];
      new;
      BuildRing();
    }

    method BuildRing()
      modifies this`ring, this`sortedKeys
      ensures Valid()
    {
      ring := map[];
      for k := 0 to |nodes|
        invariant ring == RingOf(hashing, virtualNodes, nodes[..k])
      {
        PlaceNode(nodes[k]);
        assert nodes[..k + 1][..k] == nodes[..k];
      }
      assert nodes[..|nodes|] == nodes;
      sortedKeys := SortedKeys(ring.Keys);
    }

    method PlaceNode(node: NodeId)
      modifies this`ring
      ensures ring == old(ring) + map p | p in Positions(hashing, virtualNodes, node) :: node
    {
      hide Positions;
      PlacedNone(ring, hashing, node);
      for i := 0 to virtualNodes
        invariant ring == Placed(old(ring), hashing, i, node)
      {
        PlacedOne(old(ring), hashing, i, node);
        ring := ring[hashing.virtualKey(node, i) := node];
      }
    }

    /** The owner of the key's home; an empty ring has none. */
    method GetNode(key: string) returns (owner: Option<NodeId>)
      requires Valid()
      ensures owner.None? <==> ring == map[]
      ensures owner.Some? ==> exists p | p in ring :: IsHome(ring.Keys, hashing.key(key), p) && ring[p] == owner.value
    {
      hide RingOf, SortedKeys, IsHome;
      if sortedKeys == [] {
        assert forall p :: p !in ring;
        return None;
      }
      var start := hashing.key(key);
      SortedKeysAscend(ring.Keys);
      assert sortedKeys[0] in ring;
      for i := 0 to |sortedKeys|
        invariant forall j | 0 <= j < i :: sortedKeys[j] < start
      {
        if start <= sortedKeys[i] {
          assert sortedKeys[i] in ring;
          FirstIsHome(ring.Keys, sortedKeys, start, i);
          return Some(ring[sortedKeys[i]]);
        }
      }
      WrapStartsAtHome(ring.Keys, sortedKeys, start);
      return Some(ring[sortedKeys[0]]);
    }

    method GetReplicas(key: string, count: int) returns (replicas: seq<NodeId>)
      requires Valid()
      ensures replicas == Take(Order(ring, hashing.key(key)), count)
      ensures replicas <= Order(ring, hashing.key(key))
      ensures |replicas| == if count <= 0 then 0 else if count <= |ring.Values| then count else |ring.Values|
    {
      hide Valid, RingOf, SortedKeys, Order, Firsts, Filter, OwnersAlong;
      var start := hashing.key(key);
      var found, seen := FirstPass(start, count);
      if |found| < count {
        found := SecondPass(start, count, found, seen);
      }
      replicas := Slice(found, count);
      OrderIsComplete(ring, start);
    }

    /** The loop over the keys twice in a row, from the start on. */
    method FirstPass(start: nat, count: int) returns (found: seq<NodeId>, seen: set<NodeId>)
      requires Valid()
      ensures found <= Order(ring, start) && forall n :: n in seen <==> n in found
      ensures |found| < count ==>
                (forall p | p in From(sortedKeys, start) :: p in ring)
                && found == Firsts(OwnersAlong(ring, From(sortedKeys, start)))
      ensures count <= 0 ==> |found| <= 1
    {
      hide RingOf, SortedKeys, Order, Firsts, Filter, OwnersAlong;
      found, seen := [], {};
      var keys := sortedKeys + sortedKeys;
      MeetNothing(ring, start);
      assert forall p | p in keys :: p in ring;
      for i := 0 to |keys|
        invariant forall p | p in From(keys[..i], start) :: p in ring
        invariant found == Firsts(OwnersAlong(ring, From(keys[..i], start)))
        invariant forall n :: n in seen <==> n in found
        invariant found == [] || |found| < count
      {
        assert keys[..i + 1] == keys[..i] + [keys[i]];
        MeetOne(ring, keys[..i], keys[i], start);
        if start <= keys[i] {
          var node := ring[keys[i]];
          if node !in seen {
            found := found + [node];
            seen := seen + {node};
            if |found| >= count {
              PartOfOrder(start, keys, i + 1);
              return;
            }
          }
        }
      }
      PartOfOrder(start, keys, |keys|);
      assert keys[..|keys|] == keys;
      FromTwice(start);
    }

    lemma FromTwice(start: nat)
      requires Valid()
      ensures var after := From(sortedKeys, start);
              && From(sortedKeys + sortedKeys, start) == after + after
              && (forall p | p in after :: p in ring)
              && Firsts(OwnersAlong(ring, after + after)) == Firsts(OwnersAlong(ring, after))
    {
      hide RingOf, Firsts;
      FilterConcat(sortedKeys, sortedKeys, x => x >= start);
      AbsorbAlong(ring, From(sortedKeys, start), From(sortedKeys, start));
    }

    /** What the first pass has found at any moment comes first in the order. */
    lemma PartOfOrder(start: nat, keys: seq<nat>, i: nat)
      requires Valid() && keys == sortedKeys + sortedKeys && i <= |keys|
      ensures forall p | p in From(keys[..i], start) :: p in ring
      ensures Firsts(OwnersAlong(ring, From(keys[..i], start))) <= Order(ring, start)
    {
      hide Firsts, Filter, RingOf, SortedKeys;
      assert keys == keys[..i] + keys[i..];
      assert forall p | p in keys :: p in ring;
      FilterConcat(keys[..i], keys[i..], x => x >= start);
      GrowAlong(ring, From(keys[..i], start), From(keys[i..], start));
      FromTwice(start);
      WalkIsOnRing(ring, start);
      GrowAlong(ring, From(sortedKeys, start), Before(sortedKeys, start));
    }

    /** The loop over all keys for what is still missing. */
    method SecondPass(start: nat, count: int, found: seq<NodeId>, seen: set<NodeId>) returns (all: seq<NodeId>)
      requires Valid() && |found| < count && forall n :: n in seen <==> n in found
      requires (forall p | p in From(sortedKeys, start) :: p in ring)
               && found == Firsts(OwnersAlong(ring, From(sortedKeys, start)))
      ensures all <= Order(ring, start)
      ensures |all| >= count || all == Order(ring, start)
    {
      hide RingOf, SortedKeys, Order, Firsts, Filter, OwnersAlong;
      var met := seen;
      ghost var after := From(sortedKeys, start);
      all := found;
      assert after + [] == after;
      for i := 0 to |sortedKeys|
        invariant forall p | p in after + sortedKeys[..i] :: p in ring
        invariant all == Firsts(OwnersAlong(ring, after + sortedKeys[..i]))
        invariant forall n :: n in met <==> n in all
        invariant |all| < count
      {
        assert after + sortedKeys[..i + 1] == (after + sortedKeys[..i]) + [sortedKeys[i]];
        PassOne(ring, after + sortedKeys[..i], sortedKeys[i]);
        var node := ring[sortedKeys[i]];
        if node !in met {
          all := all + [node];
          met := met + {node};
          if |all| >= count {
            WholeOrder(start, i + 1);
            return;
          }
        }
      }
      WholeOrder(start, |sortedKeys|);
    }

    /** Adding all keys to what lies after the start completes the order. */
    lemma WholeOrder(start: nat, i: nat)
      requires Valid() && i <= |sortedKeys|
      ensures var met := From(sortedKeys, start) + sortedKeys[..i];
              && (forall p | p in met :: p in ring)
              && Firsts(OwnersAlong(ring, met)) <= Order(ring, start)
              && (i == |sortedKeys| ==> Firsts(OwnersAlong(ring, met)) == Order(ring, start))
    {
      hide Firsts, Filter, RingOf, SortedKeys, OwnersAlong;
      SortedKeysAscend(ring.Keys);
      WalkIsOnRing(ring, start);
      AllKeysCompleteWalk(ring, sortedKeys, start, i);
    }

    method AddNode(node: NodeId)
      requires Valid()
      modifies this
      ensures Valid()
      ensures nodes == if node in old(nodes) then old(nodes) else old(nodes) + [node]
    {
      if node !in nodes {
        nodes := nodes + [node];
        BuildRing();
      }
    }

    method RemoveNode(node: NodeId)
      requires Valid()
      modifies this
      ensures Valid() && nodes == Removed(old(nodes), node)
    {
      if node in nodes {
        nodes := Removed(nodes, node);
        BuildRing();
      } else {
        NothingRemoved(nodes, node);
      }
    }
  }

  lemma {:induction false} NothingRemoved(nodes: seq<NodeId>, n: NodeId)
    requires n !in nodes
    ensures Removed(nodes, n) == nodes
  {
    if nodes != [] { NothingRemoved(nodes[1..], n); }
  }
}
