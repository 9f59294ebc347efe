/** Splitting the time until a deadline among discovery endpoints
    (discoverFromURLs and discoveryAttemptTimeout in pkg/relay/discovery.go).
    Times are in nanoseconds. */
module Deadline {
  import opened Text

  const DEFAULT_REQUEST_TIMEOUT: int := 10_000_000_000

  /** How one endpoint behaves: whether it answers, how long that takes, and
      whether the caller has cancelled by then. */
  datatype Endpoint = Endpoint(answers: bool, used: nat, cancelled: bool)

  /** The timeout of the next request, 0 for none of its own; `remaining` is the
      time to the deadline, if there is one. */
  function AttemptTimeout(remaining: Option<int>, remainingEndpoints: int): int {
    var n := if remainingEndpoints < 1 then 1 else remainingEndpoints;
    match remaining
    case None => DEFAULT_REQUEST_TIMEOUT
    case Some(left) =>
      if left <= 0 then 0
      else
        var split := if left / n <= 0 then left else left / n;
        if split < DEFAULT_REQUEST_TIMEOUT then split else DEFAULT_REQUEST_TIMEOUT
  }

  function After(remaining: Option<int>, used: nat): Option<int> {
    if remaining.Some? then Some(remaining.value - used) else None
  }

  /** The endpoint ends the search: it answers, or the context is done afterwards. */
  predicate Ends(remaining: Option<int>, e: Endpoint) {
    e.answers || e.cancelled || (remaining.Some? && remaining.value <= e.used)
  }

  /** The timeouts offered, one for each endpoint tried. */
  function Offers(remaining: Option<int>, es: seq<Endpoint>): (offers: seq<int>)
    ensures |offers| <= |es|
    decreases |es|
  {
    if es == [] then []
    else
      [AttemptTimeout(remaining, |es|)] +
      if Ends(remaining, es[0]) then [] else Offers(After(remaining, es[0].used), es[1..])
  }

  lemma OffersStep(remaining: Option<int>, es: seq<Endpoint>, i: nat, offers: seq<int>)
    requires i < |es|
    ensures var e, t := es[i], [AttemptTimeout(remaining, |es| - i)];
            offers + Offers(remaining, es[i..]) ==
            offers + t + if e.answers || e.cancelled || (remaining.Some? && remaining.value <= e.used) then []
                         else Offers(After(remaining, e.used), es[i + 1..])
  {
    assert es[i..][1..] == es[i + 1..];
  }

  lemma OffersEnd(remaining: Option<int>, es: seq<Endpoint>)
    requires es == []
    ensures Offers(remaining, es) == []
  {
  }

  method DiscoverFromUrls(budget: Option<int>, es: seq<Endpoint>) returns (found: Option<nat>, offers: seq<int>)
    ensures offers == Offers(budget, es)
    ensures found.Some? ==> found.value == |offers| - 1 && found.value < |es| && es[found.value].answers
    ensures found.None? ==> forall i :: 0 <= i < |offers| ==> !es[i].answers
  {
    hide AttemptTimeout;
    hide Offers;
    hide Ends;
    offers := [];
    var remaining := budget;
    assert es[0..] == es;
    for i := 0 to |es|
      invariant |offers| == i
      invariant forall j :: 0 <= j < i ==> !es[j].answers
      invariant Offers(budget, es) == offers + Offers(remaining, es[i..])
    {
      OffersStep(remaining, es, i, offers);
      offers := offers + [AttemptTimeout(remaining, |es| - i)];
      if es[i].answers {
        return Some(i), offers;
      }
      if es[i].cancelled || (remaining.Some? && remaining.value <= es[i].used) {
        return None, offers;
      }
      remaining := After(remaining, es[i].used);
    }
    found := None;
    OffersEnd(remaining, es[|es|..]);
  }

  /** Each endpoint tried takes no longer than the timeout it was offered. */
  ghost predicate Obedient(remaining: Option<int>, es: seq<Endpoint>) {
    forall i :: 0 <= i < |Offers(remaining, es)| ==> es[i].used <= Offers(remaining, es)[i]
  }

  lemma ObedientTail(left: int, es: seq<Endpoint>)
    requires es != [] && Obedient(Some(left), es) && !Ends(Some(left), es[0])
    ensures es[0].used <= AttemptTimeout(Some(left), |es|)
    ensures Obedient(Some(left - es[0].used), es[1..])
  {
    var offers, rest := Offers(Some(left), es), Offers(Some(left - es[0].used), es[1..]);
    assert offers == [AttemptTimeout(Some(left), |es|)] + rest;
    assert es[0].used <= offers[0];
    forall i | 0 <= i < |rest|
      ensures es[1..][i].used <= rest[i]
    {
      assert es[i + 1].used <= offers[i + 1];
    }
  }

  /** What a full share leaves is enough for as large a share for each of the rest. */
  lemma ShareGrows(left: int, used: nat, n: int)
    requires n >= 2 && left >= n && used <= left / n
    ensures left / n >= 1 && left - used >= n - 1 && (left - used) / (n - 1) >= left / n
  {
    var q := left / n;
    assert left >= n * q;
    assert q >= 1;
    assert left - used >= (n - 1) * q;
    Quotient(left - used, n - 1, q);
    Quotient(left - used, n - 1, 1);
  }

  lemma Quotient(x: int, n: int, q: nat)
    requires n >= 1 && x >= n * q
    ensures x / n >= q
  {
    var d := x / n;
    assert x < n * (d + 1);
    assert q >= d + 1 ==> n * q >= n * (d + 1);
  }

  lemma Multiply(n: nat, x: int, y: int)
    requires x >= y
    ensures n * x >= n * y
  {
  }

  predicate Growing(xs: seq<int>) {
    && (forall i :: 0 <= i < |xs| ==> xs[i] > 0)
    && (forall i, j :: 0 <= i <= j < |xs| ==> xs[i] <= xs[j])
  }

  lemma GrowingCons(x: int, xs: seq<int>)
    requires x > 0 && Growing(xs) && (xs != [] ==> x <= xs[0])
    ensures Growing([x] + xs)
  {
    forall i, j | 0 <= i <= j < |[x] + xs|
      ensures ([x] + xs)[i] <= ([x] + xs)[j]
    {
      if 0 < j {
        assert xs[0] <= xs[j - 1];
      }
    }
  }

  /** With at least one unit for each endpoint, and no attempt over its timeout,
      every timeout is positive and none is smaller than an earlier one. */
  lemma {:induction false} SharesNeverShrink(left: int, es: seq<Endpoint>)
    requires left >= |es| && Obedient(Some(left), es)
    ensures Growing(Offers(Some(left), es))
    decreases |es|
  {
    hide AttemptTimeout;
    hide Obedient;
    if es != [] {
      ShareWithin(left, |es|);
    }
    if es != [] && !Ends(Some(left), es[0]) {
      var first, used := AttemptTimeout(Some(left), |es|), es[0].used;
      ObedientTail(left, es);
      var rest := Offers(Some(left - used), es[1..]);
      assert Offers(Some(left), es) == [first] + rest;
      if |es| >= 2 {
        NextShare(left, used, |es|);
        SharesNeverShrink(left - used, es[1..]);
        assert rest[0] == AttemptTimeout(Some(left - used), |es| - 1);
      } else {
        assert es[1..] == [];
      }
      GrowingCons(first, rest);
    }
  }

  lemma NextShare(left: int, used: nat, n: int)
    requires n >= 2 && left >= n && used <= AttemptTimeout(Some(left), n)
    ensures left - used >= n - 1
    ensures AttemptTimeout(Some(left), n) <= AttemptTimeout(Some(left - used), n - 1)
  {
    Quotient(left, n, 1);
    ShareGrows(left, used, n);
  }

  /** Another endpoint is tried exactly if there is one, the last one did not answer,
      and neither the caller nor the deadline has ended the search. */
  lemma {:induction false} NextTried(remaining: Option<int>, es: seq<Endpoint>, i: nat)
    requires i < |Offers(remaining, es)|
    ensures i + 1 < |Offers(remaining, es)| <==>
              && i + 1 < |es| && !es[i].answers && !es[i].cancelled
              && (remaining.None? || Spent(es, i + 1) < remaining.value)
    decreases |es|
  {
    hide AttemptTimeout;
    if i > 0 {
      NextTried(After(remaining, es[0].used), es[1..], i - 1);
      SpentTail(es, i + 1);
    } else {
      assert Spent(es, 1) == es[0].used;
    }
  }

  /** Without a deadline every endpoint tried is given ten seconds. */
  lemma {:induction false} NoDeadline(es: seq<Endpoint>, i: nat)
    requires i < |Offers(None, es)|
    ensures Offers(None, es)[i] == 10_000_000_000
    decreases |es|
  {
    if i > 0 {
      NoDeadline(es[1..], i - 1);
    }
  }

  /** With a deadline ahead it is ten seconds, or an equal part of the time left if that
      is less; a part of less than one unit is replaced by all that is left. Past the
      deadline there is none. */
  lemma ExactShare(left: int, n: int)
    requires n >= 1
    ensures var t := AttemptTimeout(Some(left), n);
            && (left <= 0 ==> t == 0)
            && (n * 10_000_000_000 <= left ==> t == 10_000_000_000)
            && (n <= left < n * 10_000_000_000 ==> n * t <= left < n * (t + 1))
            && (0 < left < n ==> t == if left < 10_000_000_000 then left else 10_000_000_000)
  {
    hide AttemptTimeout;
    if left <= 0 {
      NoTimeLeft(left, n);
    } else if n * 10_000_000_000 <= left {
      PlentyLeft(left, n);
    } else if n <= left {
      EqualPart(left, n);
    } else {
      HardlyAnyLeft(left, n);
    }
  }

  lemma NoTimeLeft(left: int, n: int)
    requires left <= 0
    ensures AttemptTimeout(Some(left), n) == 0
  {
  }

  lemma PlentyLeft(left: int, n: int)
    requires n >= 1 && n * 10_000_000_000 <= left
    ensures AttemptTimeout(Some(left), n) == 10_000_000_000
  {
    Quotient(left, n, 10_000_000_000);
  }

  lemma HardlyAnyLeft(left: int, n: int)
    requires 0 < left < n
    ensures AttemptTimeout(Some(left), n) == if left < 10_000_000_000 then left else 10_000_000_000
  {
    assert left / n == 0;
  }

  lemma EqualPart(left: int, n: int)
    requires n >= 1 && n <= left < n * 10_000_000_000
    ensures var t := AttemptTimeout(Some(left), n); n * t <= left < n * (t + 1)
  {
    hide AttemptTimeout;
    Quotient(left, n, 1);
    SmallPart(left, n);
    PartIsShare(left, n);
    Between(left, n);
  }

  lemma Between(left: int, n: int)
    requires n >= 1
    ensures n * (left / n) <= left < n * (left / n + 1)
  {
  }

  lemma SmallPart(left: int, n: int)
    requires n >= 1 && left < n * 10_000_000_000
    ensures left / n < 10_000_000_000
  {
    if left / n >= 10_000_000_000 {
      Multiply(n, left / n, 10_000_000_000);
    }
  }

  lemma PartIsShare(left: int, n: int)
    requires n >= 1 && left >= 1 && 1 <= left / n < 10_000_000_000
    ensures AttemptTimeout(Some(left), n) == left / n
  {
  }

  function Spent(es: seq<Endpoint>, n: nat): nat
    requires n <= |es|
  {
    if n == 0 then 0 else Spent(es, n - 1) + es[n - 1].used
  }

  lemma {:induction false} SpentTail(es: seq<Endpoint>, n: nat)
    requires 0 < n <= |es|
    ensures Spent(es, n) == es[0].used + Spent(es[1..], n - 1)
  {
    if n > 1 {
      SpentTail(es, n - 1);
    }
  }

  /** At every attempt the time already spent and the timeout now offered stay
      within the budget, however the endpoints behave. */
  lemma {:induction false} OfferWithinBudget(left: int, es: seq<Endpoint>, i: nat)
    requires left > 0 && i < |Offers(Some(left), es)|
    ensures Spent(es, i) + Offers(Some(left), es)[i] <= left
    decreases |es|
  {
    if i == 0 {
      ShareWithin(left, |es|);
    } else {
      OfferWithinBudget(left - es[0].used, es[1..], i - 1);
      SpentTail(es, i);
    }
  }

  lemma ShareWithin(left: int, n: int)
    requires left > 0 && n > 0
    ensures 0 < AttemptTimeout(Some(left), n) <= left
  {
    var d := left / n;
    assert n * d <= left;
    if d > 0 {
      Multiply(d, n, 1);
    }
  }

  function Sum(xs: seq<int>): int {
    if xs == [] then 0 else xs[0] + Sum(xs[1..])
  }

  ghost predicate SumWithin(left: int, es: seq<Endpoint>) {
    Sum(Offers(Some(left), es)) <= left
  }

  lemma {:induction false} SumAtMost(left: int, es: seq<Endpoint>)
    ensures Sum(Offers(Some(left), es)) <= |es| * DEFAULT_REQUEST_TIMEOUT
    decreases |es|
  {
    if es != [] && !Ends(Some(left), es[0]) {
      SumAtMost(left - es[0].used, es[1..]);
      assert Offers(Some(left), es)[1..] == Offers(Some(left - es[0].used), es[1..]);
    } else if es != [] {
      assert Offers(Some(left), es)[1..] == [];
    }
  }

  /** `n` endpoints that fail at once. */
  function Idle(n: nat): seq<Endpoint> {
    seq(n, _ => Endpoint(false, 0, false))
  }

  function IdleSum(left: int, n: nat): int {
    if n == 0 then 0 else AttemptTimeout(Some(left), n) + IdleSum(left, n - 1)
  }

  lemma {:induction false} IdleOffers(left: int, n: nat)
    requires left > 0
    ensures Sum(Offers(Some(left), Idle(n))) == IdleSum(left, n)
    ensures Obedient(Some(left), Idle(n))
  {
    if n > 0 {
      IdleOffers(left, n - 1);
      assert Idle(n)[1..] == Idle(n - 1);
      assert Offers(Some(left), Idle(n))[1..] == Offers(Some(left), Idle(n - 1));
    }
    forall i | 0 <= i < |Offers(Some(left), Idle(n))|
      ensures Idle(n)[i].used <= Offers(Some(left), Idle(n))[i]
    {
      OffersNotNegative(left, Idle(n), i);
    }
  }

  lemma {:induction false} OffersNotNegative(left: int, es: seq<Endpoint>, i: nat)
    requires i < |Offers(Some(left), es)|
    ensures Offers(Some(left), es)[i] >= 0
    decreases |es|
  {
    if i > 0 {
      OffersNotNegative(left - es[0].used, es[1..], i - 1);
    } else if left > 0 {
      ShareWithin(left, |es|);
    }
  }

  /** With room for all, every idle share is the full request timeout. */
  lemma {:induction false} IdleFull(left: int, n: nat)
    requires left >= n * DEFAULT_REQUEST_TIMEOUT
    ensures IdleSum(left, n) == n * DEFAULT_REQUEST_TIMEOUT
  {
    if n > 0 {
      Quotient(left, n, DEFAULT_REQUEST_TIMEOUT);
      IdleFull(left, n - 1);
    }
  }

  lemma IdleStep(left: int, n: nat)
    requires n > 0
    ensures IdleSum(left, n) == AttemptTimeout(Some(left), n) + IdleSum(left, n - 1)
  {
  }

  lemma {:induction false} IdleSumTooLarge(left: int, n: nat)
    requires n >= 2 && 1 <= left < n * DEFAULT_REQUEST_TIMEOUT - 1
    ensures IdleSum(left, n) > left
  {
    var c := DEFAULT_REQUEST_TIMEOUT;
    ShareWithin(left, n);
    if n == 2 {
      IdleStep(left, 2);
      IdleStep(left, 1);
    } else if left < (n - 1) * c - 1 {
      IdleSumTooLarge(left, n - 1);
    } else {
      IdleFull(left, n - 2);
      IdleStep(left, n - 1);
      if left == (n - 1) * c - 1 {
        Quotient(left, n - 1, c - 1);
      } else {
        Quotient(left, n - 1, c);
        var r := left - (n - 1) * c;
        assert n * (r + 1) <= left by {
          LastShare(n, r);
        }
        Quotient(left, n, r + 1);
      }
    }
  }

  lemma LastShare(n: int, r: int)
    requires n >= 2 && 0 <= r < DEFAULT_REQUEST_TIMEOUT - 1
    ensures n * (r + 1) <= (n - 1) * DEFAULT_REQUEST_TIMEOUT + r
  {
    Multiply(n - 1, DEFAULT_REQUEST_TIMEOUT, r + 2);
    assert (n - 1) * (r + 2) == n * r + 2 * n - r - 2;
    assert n * (r + 1) == n * r + n;
  }

  /** Whether the timeouts offered always sum to at most the budget can be told
      before the first request: they do if and only if there is a single endpoint
      or the budget, to one unit, covers the full request timeout of each. With a
      smaller budget, endpoints that fail early let the sum run over it. */
  lemma SumFits(left: int, n: nat)
    requires left >= 1 && n >= 1
    ensures (forall es :: |es| == n && Obedient(Some(left), es) ==> SumWithin(left, es)) <==>
            n == 1 || left >= n * DEFAULT_REQUEST_TIMEOUT - 1
  {
    if n == 1 || left >= n * DEFAULT_REQUEST_TIMEOUT - 1 {
      forall es | |es| == n
        ensures SumWithin(left, es)
      {
        SumBelow(left, es);
      }
    } else {
      IdleSumTooLarge(left, n);
      IdleOffers(left, n);
      assert |Idle(n)| == n && !SumWithin(left, Idle(n));
    }
  }

  /** With ten seconds for two endpoints and a first one that fails at once, five
      seconds and then ten are offered. */
  lemma SumOverruns()
    ensures Obedient(Some(10_000_000_000), Idle(2))
    ensures Sum(Offers(Some(10_000_000_000), Idle(2))) == 15_000_000_000
  {
    IdleOffers(10_000_000_000, 2);
    IdleStep(10_000_000_000, 2);
    IdleStep(10_000_000_000, 1);
  }

  lemma SumBelow(left: int, es: seq<Endpoint>)
    requires left >= 1 && (|es| == 1 || (es != [] && left >= |es| * DEFAULT_REQUEST_TIMEOUT - 1))
    ensures SumWithin(left, es)
  {
    var offers, first := Offers(Some(left), es), AttemptTimeout(Some(left), |es|);
    ShareWithin(left, |es|);
    assert offers[0] == first;
    if Ends(Some(left), es[0]) || |es| == 1 {
      assert offers[1..] == [];
    } else {
      var rest := es[1..];
      SumAtMost(left - es[0].used, rest);
      assert offers[1..] == Offers(Some(left - es[0].used), rest);
      FirstShare(left, |es|);
      assert Sum(offers) <= first + (|es| - 1) * DEFAULT_REQUEST_TIMEOUT;
    }
  }

  lemma FirstShare(left: int, n: int)
    requires n >= 1 && left >= n * DEFAULT_REQUEST_TIMEOUT - 1
    ensures AttemptTimeout(Some(left), n) + (n - 1) * DEFAULT_REQUEST_TIMEOUT <= left
  {
    var c, d := DEFAULT_REQUEST_TIMEOUT, left / n;
    if left < n * c {
      Quotient(left, n, 1);
      assert d >= c ==> n * d >= n * c;
      assert n * d <= left;
    }
  }
}
