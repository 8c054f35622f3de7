/** The commit rule's median: the middle of the sorted match indices. */
module RaftMedian {

  function Inserted(v: int, s: seq<int>): (r: seq<int>)
    ensures |r| == |s| + 1
    ensures multiset(r) == multiset(s) + multiset{v}
    ensures r[0] == v || (s != [] && r[0] == s[0])
  {
    if s == [] || v <= s[0] then [v] + s
    else
      assert s == [s[0]] + s[1..];
      [s[0]] + Inserted(v, s[1..])
  }

  function Sorted(s: seq<int>): (r: seq<int>)
    ensures |r| == |s| && multiset(r) == multiset(s)
  {
    if s == [] then []
    else
      assert s == [s[0]] + s[1..];
      Inserted(s[0], Sorted(s[1..]))
  }

  predicate Ascending(s: seq<int>) {
    forall i, j | 0 <= i < j < |s| :: s[i] <= s[j]
  }

  lemma SmallerFirst(x: int, s: seq<int>)
    requires Ascending(s) && (s == [] || x <= s[0])
    ensures Ascending([x] + s)
  {
  }

  lemma {:induction false} InsertedAscends(v: int, s: seq<int>)
    requires Ascending(s)
    ensures Ascending(Inserted(v, s))
  {
    if s == [] || v <= s[0] {
      SmallerFirst(v, s);
    } else {
      InsertedAscends(v, s[1..]);
      SmallerFirst(s[0], Inserted(v, s[1..]));
    }
  }

  lemma {:induction false} SortedAscends(s: seq<int>)
    ensures Ascending(Sorted(s))
  {
    if s != [] {
      SortedAscends(s[1..]);
      InsertedAscends(s[0], Sorted(s[1..]));
    }
  }

  /** `sorted(s)[len(s) // 2]` */
  function Median(s: seq<int>): int
    requires s != []
  {
    Sorted(s)[|s| / 2]
  }

  lemma FirstIsLeast(s: seq<int>, v: int)
    requires Ascending(s) && v in s
    ensures s != [] && s[0] <= v
  {
  }

  lemma WithoutFirst(s: seq<int>)
    requires s != []
    ensures multiset(s[1..]) == multiset(s) - multiset{s[0]}
  {
    assert s == [s[0]] + s[1..];
  }

  lemma SameFirst(s: seq<int>, t: seq<int>)
    requires Ascending(s) && Ascending(t) && multiset(s) == multiset(t) && s != []
    ensures t != [] && t[0] == s[0]
  {
    assert s[0] in multiset(s) && s[0] in t;
    assert t[0] in multiset(t) && t[0] in s;
    FirstIsLeast(t, s[0]);
    FirstIsLeast(s, t[0]);
  }

  /** There is one way to sort. */
  lemma {:induction false} SortingIsUnique(s: seq<int>, t: seq<int>)
    requires Ascending(s) && Ascending(t) && multiset(s) == multiset(t)
    ensures s == t
  {
    if s == [] {
      assert |multiset(t)| == 0;
    } else {
      SameFirst(s, t);
      WithoutFirst(s);
      WithoutFirst(t);
      SortingIsUnique(s[1..], t[1..]);
      assert s == [s[0]] + s[1..] && t == [t[0]] + t[1..];
    }
  }

  /** The median is the middle of any sorted arrangement. */
  lemma MedianIsTheMiddle(s: seq<int>, sorted: seq<int>)
    requires s != [] && Ascending(sorted) && multiset(sorted) == multiset(s)
    ensures |sorted| == |s| && Median(s) == sorted[|s| / 2]
  {
    SortedAscends(s);
    SortingIsUnique(Sorted(s), sorted);
  }

  /** How many elements of `s` are at least `v`. */
  function AtLeast(s: seq<int>, v: int): (n: nat)
    ensures n <= |s|
  {
    if s == [] then 0 else (if s[0] >= v then 1 else 0) + AtLeast(s[1..], v)
  }

  lemma {:induction false} AtLeastInserted(x: int, s: seq<int>, v: int)
    ensures AtLeast(Inserted(x, s), v) == AtLeast(s, v) + if x >= v then 1 else 0
  {
    if s == [] || x <= s[0] {
      assert Inserted(x, s)[1..] == s;
    } else {
      assert Inserted(x, s)[1..] == Inserted(x, s[1..]);
      AtLeastInserted(x, s[1..], v);
    }
  }

  lemma {:induction false} AtLeastSorted(s: seq<int>, v: int)
    ensures AtLeast(Sorted(s), v) == AtLeast(s, v)
  {
    if s != [] {
      AtLeastSorted(s[1..], v);
      AtLeastInserted(s[0], Sorted(s[1..]), v);
    }
  }

  lemma {:induction false} AtLeastAscending(s: seq<int>, k: nat)
    requires Ascending(s) && k < |s|
    ensures AtLeast(s, s[k]) >= |s| - k
  {
    if k > 0 {
      AtLeastAscending(s[1..], k - 1);
    } else {
      AllAtLeast(s, s[0]);
    }
  }

  lemma {:induction false} AllAtLeast(s: seq<int>, v: int)
    requires forall i | 0 <= i < |s| :: s[i] >= v
    ensures AtLeast(s, v) == |s|
  {
    if s != [] { AllAtLeast(s[1..], v); }
  }

  /** The median is reached by at least the upper half, middle included. */
  lemma MedianIsReached(s: seq<int>)
    requires s != []
    ensures AtLeast(s, Median(s)) >= |s| - |s| / 2
  {
    SortedAscends(s);
    AtLeastAscending(Sorted(s), |s| / 2);
    AtLeastSorted(s, Median(s));
  }

  lemma {:induction false} SortedOfAscending(s: seq<int>)
    requires Ascending(s)
    ensures Sorted(s) == s
  {
    if s != [] {
      SortedOfAscending(s[1..]);
      assert [s[0]] + s[1..] == s;
    }
  }

  /** Half zeros, then half ones. */
  function Halves(half: nat): (s: seq<int>)
    ensures |s| == 2 * half && Ascending(s)
  {
    seq(2 * half, i requires 0 <= i < 2 * half => if i < half then 0 else 1)
  }

  lemma {:induction false} AtLeastOneAfterZeros(s: seq<int>, zeros: nat)
    requires zeros <= |s|
    requires forall i | 0 <= i < |s| :: s[i] == if i < zeros then 0 else 1
    ensures AtLeast(s, 1) == |s| - zeros
  {
    if zeros > 0 {
      AtLeastOneAfterZeros(s[1..], zeros - 1);
    } else {
      AllAtLeast(s, 1);
    }
  }

  lemma EvenMedianIsShort(half: nat)
    requires half > 0
    ensures AtLeast(Halves(half), Median(Halves(half))) == half
  {
    var s := Halves(half);
    SortedOfAscending(s);
    assert Median(s) == s[half] == 1;
    AtLeastOneAfterZeros(s, half);
  }

  /** The median of one index per node is reached by a quorum of nodes, for all indices, exactly
      when the number of nodes is odd. */
  lemma MedianCoversQuorumIffOdd(n: nat)
    requires n > 0
    ensures (forall s: seq<int> | |s| == n :: AtLeast(s, Median(s)) >= n / 2 + 1) <==> n % 2 == 1
  {
    forall s: seq<int> | |s| == n
      ensures AtLeast(s, Median(s)) >= n - n / 2
    {
      MedianIsReached(s);
    }
    if n % 2 == 0 {
      EvenMedianIsShort(n / 2);
      assert |Halves(n / 2)| == n;
    }
  }
}
