/** Order statistics of lists of integers, told by counting. */
module Ranks {
  import opened Numbers
  import opened StableSort

  lemma {:induction false} SortedTail(s: seq<int>)
    requires s != [] && Sorted(s, AtMost)
    ensures Sorted(s[1..], AtMost)
  {
  }

  lemma {:induction false} SortedAt(s: seq<int>, i: nat, j: nat)
    requires Sorted(s, AtMost) && i <= j < |s|
    ensures s[i] <= s[j]
  {
    assert i < j ==> AtMost(s[i], s[j]);
  }

  function CountBelow(s: seq<int>, bound: int): nat {
    if s == [] then 0 else (if s[0] < bound then 1 else 0) + CountBelow(s[1..], bound)
  }

  lemma {:induction false} CountInserted(x: int, s: seq<int>, bound: int)
    ensures CountBelow(Insert(x, s, AtMost), bound) == (if x < bound then 1 else 0) + CountBelow(s, bound)
  {
    if s != [] && !AtMost(x, s[0]) {
      CountInserted(x, s[1..], bound);
    } else {
      assert ([x] + s)[1..] == s;
    }
  }

  lemma {:induction false} CountSorted(s: seq<int>, bound: int)
    ensures CountBelow(Sort(s, AtMost), bound) == CountBelow(s, bound)
  {
    if s != [] {
      CountSorted(s[1..], bound);
      CountInserted(s[0], Sort(s[1..], AtMost), bound);
    }
  }

  /** In a sorted list, the element at `u` reaches the bound if and only if at most `u` elements stay below it. */
  lemma {:induction false} RankByCount(s: seq<int>, bound: int, u: nat)
    requires Sorted(s, AtMost) && u < |s|
    ensures s[u] >= bound <==> CountBelow(s, bound) <= u
  {
    SortedTail(s);
    if s[0] >= bound {
      NoneBelow(s, bound);
      assert u > 0 ==> AtMost(s[0], s[u]);
    } else if u > 0 {
      RankByCount(s[1..], bound, u - 1);
    }
  }

  lemma {:induction false} NoneBelow(s: seq<int>, bound: int)
    requires Sorted(s, AtMost) && (s != [] ==> s[0] >= bound)
    ensures CountBelow(s, bound) == 0
  {
    if s != [] {
      SortedTail(s);
      assert |s| > 1 ==> AtMost(s[0], s[1]);
      NoneBelow(s[1..], bound);
    }
  }

  /** Exactly so many elements are smaller that `v` stands at position `k` of the sorted list. */
  predicate Ranked(s: seq<int>, k: nat, v: int) {
    CountBelow(s, v) <= k < CountBelow(s, v + 1)
  }

  lemma {:induction false} SortedRanks(s: seq<int>, k: nat)
    requires k < |s|
    ensures Ranked(s, k, Sort(s, AtMost)[k])
  {
    hide Sort, CountBelow;
    AtMostIsTotal();
    SortSorted(s, AtMost);
    var v := Sort(s, AtMost)[k];
    CountSorted(s, v);
    CountSorted(s, v + 1);
    RankByCount(Sort(s, AtMost), v, k);
    RankByCount(Sort(s, AtMost), v + 1, k);
  }

  lemma {:induction false} CountGrows(s: seq<int>, u: int, v: int)
    requires u <= v
    ensures CountBelow(s, u) <= CountBelow(s, v)
  {
    if s != [] {
      CountGrows(s[1..], u, v);
    }
  }

  /** One value stands at each position. */
  lemma {:induction false} RankIsUnique(s: seq<int>, k: nat, u: int, v: int)
    requires Ranked(s, k, u) && Ranked(s, k, v)
    ensures u == v
  {
    if u < v {
      CountGrows(s, u + 1, v);
    } else if v < u {
      CountGrows(s, v + 1, u);
    }
  }
}
