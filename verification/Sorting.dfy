/** sort.Slice by an integer key: some sorted rearrangement. */
module Sorting {

  ghost predicate Sorted<T>(xs: seq<T>, key: T -> int) {
    forall i, j :: 0 <= i < j < |xs| ==> key(xs[i]) <= key(xs[j])
  }

  ghost predicate Rearranged<T>(xs: seq<T>, ys: seq<T>) {
    multiset(xs) == multiset(ys)
  }

  function InsertAt<T>(ys: seq<T>, k: nat, x: T): seq<T>
    requires k <= |ys|
  {
    ys[..k] + [x] + ys[k..]
  }

  lemma InsertSorted<T>(ys: seq<T>, k: nat, x: T, key: T -> int)
    requires k <= |ys| && Sorted(ys, key)
    requires k > 0 ==> key(ys[k - 1]) <= key(x)
    requires k < |ys| ==> key(x) <= key(ys[k])
    ensures Sorted(InsertAt(ys, k, x), key)
  {
    var zs := InsertAt(ys, k, x);
    forall i, j | 0 <= i < j < |zs|
      ensures key(zs[i]) <= key(zs[j])
    {
      assert zs[i] == if i < k then ys[i] else if i == k then x else ys[i - 1];
      assert zs[j] == if j < k then ys[j] else if j == k then x else ys[j - 1];
    }
  }

  lemma InsertRearranged<T>(xs: seq<T>, ys: seq<T>, k: nat, x: T)
    requires k <= |ys| && Rearranged(xs, ys)
    ensures Rearranged(xs + [x], InsertAt(ys, k, x))
  {
    assert ys == ys[..k] + ys[k..];
  }

  method SortBy<T(==)>(xs: seq<T>, key: T -> int) returns (ys: seq<T>)
    ensures Sorted(ys, key) && Rearranged(xs, ys)
  {
    ys := [];
    for n := 0 to |xs|
      invariant Sorted(ys, key) && Rearranged(xs[..n], ys)
    {
      var x := xs[n];
      var k := |ys|;
      while k > 0 && key(x) < key(ys[k - 1])
        invariant 0 <= k <= |ys| && (k < |ys| ==> key(x) <= key(ys[k]))
      {
        k := k - 1;
      }
      InsertSorted(ys, k, x, key);
      InsertRearranged(xs[..n], ys, k, x);
      assert xs[..n + 1] == xs[..n] + [x];
      ys := InsertAt(ys, k, x);
    }
    assert xs[..|xs|] == xs;
  }

  lemma RearrangedFacts<T>(xs: seq<T>, ys: seq<T>)
    requires Rearranged(xs, ys)
    ensures |xs| == |ys| && forall x :: x in xs <==> x in ys
  {
    assert |multiset(xs)| == |multiset(ys)|;
    forall x
      ensures x in xs <==> x in ys
    {
      assert x in xs <==> x in multiset(xs);
      assert x in ys <==> x in multiset(ys);
    }
  }

  /** The first `n` of a sorted rearrangement: nothing left out has a smaller key. */
  lemma BestFirst<T>(xs: seq<T>, ys: seq<T>, key: T -> int, n: nat)
    requires Sorted(ys, key) && Rearranged(xs, ys) && n <= |ys|
    ensures Sorted(ys[..n], key)
    ensures Rearranged(xs, ys[..n] + ys[n..])
    ensures forall a, b :: a in ys[..n] && b in ys[n..] ==> key(a) <= key(b)
  {
    assert ys[..n] + ys[n..] == ys;
  }

  /** No two elements have the same key. */
  ghost predicate KeysDiffer<T>(xs: seq<T>, key: T -> int) {
    forall i, j :: 0 <= i < j < |xs| ==> key(xs[i]) != key(xs[j])
  }

  lemma CountsTwice<T>(xs: seq<T>, i: nat, j: nat)
    requires i < j < |xs| && xs[i] == xs[j]
    ensures multiset(xs)[xs[i]] >= 2
  {
    var a, b := xs[..j], xs[j..];
    assert xs == a + b;
    assert a[i] in multiset(a) && b[0] in multiset(b);
  }

  lemma {:induction false} CountsOnce<T>(xs: seq<T>, key: T -> int, x: T)
    requires KeysDiffer(xs, key)
    ensures multiset(xs)[x] <= 1
  {
    if xs != [] {
      var rest, last := xs[..|xs| - 1], xs[|xs| - 1];
      assert xs == rest + [last];
      CountsOnce(rest, key, x);
      if x == last {
        assert forall i :: 0 <= i < |rest| ==> rest[i] != x;
        assert x !in multiset(rest);
      }
    }
  }

  lemma RearrangedDiffer<T>(xs: seq<T>, ys: seq<T>, key: T -> int)
    requires Rearranged(xs, ys) && KeysDiffer(xs, key)
    ensures KeysDiffer(ys, key)
  {
    RearrangedFacts(xs, ys);
    forall i: nat, j: nat | i < j < |ys|
      ensures key(ys[i]) != key(ys[j])
    {
      CountsOnce(xs, key, ys[i]);
      if ys[i] == ys[j] {
        CountsTwice(ys, i, j);
      } else {
        assert ys[i] in xs && ys[j] in xs;
      }
    }
  }
}
