/** The result shapes every module shares. */
module Common {
  datatype Option<+T> = None | Some(value: T)

  /** A value or an error, usable with `:-`. */
  datatype Result<+T, +E> = Ok(value: T) | Err(error: E) {
    predicate IsFailure() {
      Err?
    }

    function PropagateFailure<U>(): Result<U, E>
      requires Err?
    {
      Err(error)
    }

    function Extract(): T
      requires Ok?
    {
      value
    }
  }

  // --- Mapping over a sequence ---------------------------------------------------------------------

  function Map<T, U>(f: T -> U, s: seq<T>): (r: seq<U>)
    ensures |r| == |s| && forall i :: 0 <= i < |s| ==> r[i] == f(s[i])
  {
    seq(|s|, i requires 0 <= i < |s| => f(s[i]))
  }

  lemma MapMembers<T, U>(f: T -> U, s: seq<T>, u: U)
    ensures u in Map(f, s) <==> exists t :: t in s && f(t) == u
  {
    if u in Map(f, s) {
      var i :| 0 <= i < |s| && Map(f, s)[i] == u;
      assert s[i] in s && f(s[i]) == u;
    }
    if t :| t in s && f(t) == u {
      var i :| 0 <= i < |s| && s[i] == t;
      assert Map(f, s)[i] == u;
    }
  }

  lemma MapWithout<T, U>(f: T -> U, s: seq<T>, k: nat)
    requires k < |s|
    ensures multiset(Map(f, s)) == multiset(Map(f, s[..k] + s[k + 1..])) + multiset{f(s[k])}
  {
    var r := Map(f, s);
    assert r == r[..k] + [r[k]] + r[k + 1..];
    assert Map(f, s[..k] + s[k + 1..]) == r[..k] + r[k + 1..];
  }

  lemma ItemsWithout<T>(s: seq<T>, k: nat)
    requires k < |s|
    ensures multiset(s[..k] + s[k + 1..]) == multiset(s) - multiset{s[k]}
  {
    assert s == s[..k] + [s[k]] + s[k + 1..];
  }

  lemma MatchFirst<T>(a: seq<T>, b: seq<T>) returns (k: nat)
    requires a != [] && multiset(a) == multiset(b)
    ensures k < |b| && b[k] == a[0]
    ensures multiset(a[..0] + a[1..]) == multiset(b[..k] + b[k + 1..])
  {
    assert a[0] in multiset(b);
    k :| 0 <= k < |b| && b[k] == a[0];
    ItemsWithout(a, 0);
    ItemsWithout(b, k);
  }

  /** Mapping respects permutation. */
  lemma {:induction false} MapPermutation<T, U>(f: T -> U, a: seq<T>, b: seq<T>)
    requires multiset(a) == multiset(b)
    ensures multiset(Map(f, a)) == multiset(Map(f, b))
  {
    if a == [] {
      assert |multiset(b)| == 0;
    } else {
      var k := MatchFirst(a, b);
      MapPermutation(f, a[..0] + a[1..], b[..k] + b[k + 1..]);
      MapWithout(f, a, 0);
      MapWithout(f, b, k);
    }
  }
}
