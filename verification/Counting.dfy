/** Counting the members of a sequence that satisfy a predicate, for semaphores,
    wait groups and counters. */
module Counting {

  function One(b: bool): nat {
    if b then 1 else 0
  }

  function Members<T>(xs: seq<T>, p: T -> bool): set<nat> {
    set i: nat | i < |xs| && p(xs[i])
  }

  function Count<T>(xs: seq<T>, p: T -> bool): nat {
    |Members(xs, p)|
  }

  lemma CountUpdate<T>(xs: seq<T>, i: nat, x: T, p: T -> bool)
    requires i < |xs|
    ensures Count(xs[i := x], p) == Count(xs, p) - One(p(xs[i])) + One(p(x))
  {
    var before, after := Members(xs, p), Members(xs[i := x], p);
    assert before - {i} == after - {i};
    assert before == if p(xs[i]) then (before - {i}) + {i} else before - {i};
    assert after == if p(x) then (after - {i}) + {i} else after - {i};
  }

  lemma CountAppend<T>(xs: seq<T>, x: T, p: T -> bool)
    ensures Count(xs + [x], p) == Count(xs, p) + One(p(x))
  {
    var before, after := Members(xs, p), Members(xs + [x], p);
    assert after == if p(x) then before + {|xs|} else before;
  }

  lemma CountZero<T>(xs: seq<T>, p: T -> bool)
    ensures Count(xs, p) == 0 <==> forall i: nat :: i < |xs| ==> !p(xs[i])
  {
    if Count(xs, p) == 0 {
      forall i: nat | i < |xs|
        ensures !p(xs[i])
      {
        assert i !in Members(xs, p);
      }
    } else {
      var i :| i in Members(xs, p);
      assert p(xs[i]);
    }
  }

  lemma CountMonotone<T>(xs: seq<T>, p: T -> bool, q: T -> bool)
    requires forall i: nat :: i < |xs| && p(xs[i]) ==> q(xs[i])
    ensures Count(xs, p) <= Count(xs, q)
  {
    Subset(Members(xs, p), Members(xs, q));
  }

  lemma {:induction false} Subset(a: set<nat>, b: set<nat>)
    requires a <= b
    ensures |a| <= |b|
  {
    if a != {} {
      var x :| x in a;
      Subset(a - {x}, b - {x});
    }
  }

  /** The sum of `rank` over a sequence. */
  function Total<T>(xs: seq<T>, rank: T -> nat): nat {
    if xs == [] then 0 else Total(xs[..|xs| - 1], rank) + rank(xs[|xs| - 1])
  }

  lemma {:induction false} TotalUpdate<T>(xs: seq<T>, i: nat, x: T, rank: T -> nat)
    requires i < |xs|
    ensures Total(xs[i := x], rank) + rank(xs[i]) == Total(xs, rank) + rank(x)
  {
    var last := |xs| - 1;
    if i == last {
      assert xs[i := x][..last] == xs[..last];
    } else {
      assert xs[i := x][..last] == xs[..last][i := x];
      TotalUpdate(xs[..last], i, x, rank);
    }
  }

  lemma {:induction false} TotalAtMost<T>(xs: seq<T>, rank: T -> nat, most: nat)
    requires forall x :: x in xs ==> rank(x) <= most
    ensures Total(xs, rank) <= |xs| * most
  {
    if xs != [] {
      var last := |xs| - 1;
      TotalAtMost(xs[..last], rank, most);
      assert |xs| * most == last * most + most;
    }
  }
}
