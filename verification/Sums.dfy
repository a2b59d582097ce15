/** Sums over the parts of a machine's state, for measures and accounts. */
module Sums {
  import opened Common
  import opened Numbers

  function Sum<T>(weight: T -> int, items: seq<T>): int {
    if items == [] then 0 else Sum(weight, items[..|items| - 1]) + weight(items[|items| - 1])
  }

  lemma {:induction false} SumUpdate<T>(weight: T -> int, items: seq<T>, i: nat, item: T)
    requires i < |items|
    ensures Sum(weight, items[i := item]) == Sum(weight, items) - weight(items[i]) + weight(item)
  {
    var n := |items| - 1;
    if i == n {
      assert items[i := item][..n] == items[..n];
    } else {
      assert items[i := item][..n] == items[..n][i := item];
      SumUpdate(weight, items[..n], i, item);
    }
  }

  lemma SumAppend<T>(weight: T -> int, items: seq<T>, item: T)
    ensures Sum(weight, items + [item]) == Sum(weight, items) + weight(item)
  {
    assert (items + [item])[..|items|] == items;
  }

  lemma {:induction false} SumBounds<T>(weight: T -> int, items: seq<T>, most: int)
    requires forall i :: 0 <= i < |items| ==> 0 <= weight(items[i]) <= most
    ensures 0 <= Sum(weight, items) <= |items| * most
  {
    if items == [] {
    } else {
      SumBounds(weight, items[..|items| - 1], most);
      MulDistributes(|items| - 1, 1, most);
    }
  }

  // --- Counting ------------------------------------------------------------------------------------

  function Count<T>(test: T -> bool, items: seq<T>): nat {
    if items == [] then 0
    else Count(test, items[..|items| - 1]) + (if test(items[|items| - 1]) then 1 else 0)
  }

  lemma CountAppend<T>(test: T -> bool, items: seq<T>, item: T)
    ensures Count(test, items + [item]) == Count(test, items) + (if test(item) then 1 else 0)
  {
    assert (items + [item])[..|items|] == items;
  }

  lemma {:induction false} CountAsMultiset<T>(test: T -> bool, items: seq<T>)
    ensures Count(test, items) == multiset(Map(test, items))[true]
  {
    if items == [] {
    } else {
      var front := items[..|items| - 1];
      CountAsMultiset(test, front);
      assert Map(test, items) == Map(test, front) + [test(items[|items| - 1])];
    }
  }

  function Places<T>(test: T -> bool, items: seq<T>): set<nat> {
    set i: nat | i < |items| && test(items[i])
  }

  /** Counting is the number of places where the test holds. */
  lemma {:induction false} CountIsSize<T>(test: T -> bool, items: seq<T>)
    ensures Count(test, items) == |Places(test, items)|
  {
    if items == [] {
    } else {
      var n := |items| - 1;
      CountIsSize(test, items[..n]);
      var before := Places(test, items[..n]);
      assert Places(test, items) == if test(items[n]) then before + {n} else before;
    }
  }

  lemma CountPermutation<T>(test: T -> bool, a: seq<T>, b: seq<T>)
    requires multiset(a) == multiset(b)
    ensures Count(test, a) == Count(test, b)
  {
    CountAsMultiset(test, a);
    CountAsMultiset(test, b);
    MapPermutation(test, a, b);
  }

  lemma {:induction false} CountAtLeastPrefix<T>(test: T -> bool, items: seq<T>, k: nat)
    requires k <= |items| && forall i :: 0 <= i < k ==> test(items[i])
    ensures Count(test, items) >= k
  {
    if k == |items| {
      if k > 0 { CountAtLeastPrefix(test, items[..k - 1], k - 1); }
    } else {
      CountAtLeastPrefix(test, items[..|items| - 1], k);
    }
  }

  lemma {:induction false} CountAtMostPrefix<T>(test: T -> bool, items: seq<T>, k: nat)
    requires k <= |items| && forall i :: k <= i < |items| ==> !test(items[i])
    ensures Count(test, items) <= k
  {
    if |items| == 0 {
    } else {
      CountAtMostPrefix(test, items[..|items| - 1], if k == |items| then k - 1 else k);
    }
  }

  lemma {:induction false} CountMonotone<T>(test: T -> bool, wider: T -> bool, items: seq<T>)
    requires forall i :: 0 <= i < |items| && test(items[i]) ==> wider(items[i])
    ensures Count(test, items) <= Count(wider, items)
  {
    if items == [] {
    } else {
      CountMonotone(test, wider, items[..|items| - 1]);
    }
  }
}
