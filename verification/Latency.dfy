/** Measuring one relay (TestLatency in pkg/relay/discovery.go): several probes,
    of which the smallest latency and the spread are kept. */
module Latency {
  import opened Text

  /** One turn of the loop: whether the context was done before it, and the
      latency the probe measured, if it succeeded. */
  datatype Turn = Turn(cancelled: bool, latency: Option<nat>)

  datatype Measured = Measured(latency: nat, jitter: nat)

  /** The turns that are taken before the context is done. */
  function Used(turns: seq<Turn>): (u: seq<Turn>)
    ensures u <= turns
    ensures forall i :: 0 <= i < |u| ==> !u[i].cancelled
    ensures |u| < |turns| ==> turns[|u|].cancelled
  {
    if turns == [] || turns[0].cancelled then [] else [turns[0]] + Used(turns[1..])
  }

  ghost predicate Has(turns: seq<Turn>, latency: nat) {
    exists i :: 0 <= i < |turns| && turns[i].latency == Some(latency)
  }

  lemma HasSnoc(turns: seq<Turn>, t: Turn, latency: nat)
    ensures Has(turns + [t], latency) <==> Has(turns, latency) || t.latency == Some(latency)
  {
    var all := turns + [t];
    assert all[|turns|] == t;
    assert forall i :: 0 <= i < |turns| ==> all[i] == turns[i];
    if Has(turns, latency) {
      var i :| 0 <= i < |turns| && turns[i].latency == Some(latency);
      assert all[i].latency == Some(latency);
    }
  }

  ghost predicate IsLeast(turns: seq<Turn>, latency: nat) {
    Has(turns, latency) && forall l: nat :: Has(turns, l) ==> latency <= l
  }

  ghost predicate IsGreatest(turns: seq<Turn>, latency: nat) {
    Has(turns, latency) && forall l: nat :: Has(turns, l) ==> l <= latency
  }

  /** The latency measured last. */
  function LastMeasured(turns: seq<Turn>): Option<nat> {
    if turns == [] then None
    else
      var last := turns[|turns| - 1].latency;
      if last.Some? then last else LastMeasured(turns[..|turns| - 1])
  }

  /** The turns after the last one that measured 0. */
  function SinceZero(turns: seq<Turn>): seq<Turn> {
    if turns == [] || turns[|turns| - 1].latency == Some(0) then []
    else SinceZero(turns[..|turns| - 1]) + [turns[|turns| - 1]]
  }

  lemma Snoc(turns: seq<Turn>, t: Turn)
    ensures LastMeasured(turns + [t]) == if t.latency.Some? then t.latency else LastMeasured(turns)
    ensures SinceZero(turns + [t]) == if t.latency == Some(0) then [] else SinceZero(turns) + [t]
  {
    assert (turns + [t])[..|turns|] == turns;
  }

  /** What is reported for the turns taken. The code uses 0 for "nothing measured
      yet", so a relay counts as reachable exactly when the first probe was taken
      and succeeded and the latency measured last was not 0. The latency reported
      is the least of those measured after the last 0, and latency plus jitter is
      the greatest of all. */
  ghost predicate Reports(used: seq<Turn>, r: Result<Measured>) {
    && (r.Success? <==> used != [] && used[0].latency.Some? && LastMeasured(used) != Some(0))
    && (r.Success? ==> IsLeast(SinceZero(used), r.value.latency))
    && (r.Success? ==> IsGreatest(used, r.value.latency + r.value.jitter))
  }

  /** The three accumulators describe `turns`. */
  ghost predicate Tallied(turns: seq<Turn>, min: nat, max: nat, count: nat) {
    && min <= max
    && (min == 0 <==> LastMeasured(turns) in {None, Some(0)})
    && (min == 0 ==> forall l: nat :: !Has(SinceZero(turns), l))
    && (min > 0 ==> IsLeast(SinceZero(turns), min))
    && (count == 0 ==> max == 0 && forall l: nat :: !Has(turns, l))
    && (count > 0 ==> IsGreatest(turns, max))
    && (count == 1 ==> min == max)
  }

  lemma TalliedNext(turns: seq<Turn>, t: Turn, min: nat, max: nat, count: nat)
    requires Tallied(turns, min, max, count)
    ensures match t.latency
            case None => Tallied(turns + [t], min, max, count)
            case Some(l) =>
              Tallied(turns + [t], if min == 0 || l < min then l else min,
                      if l > max then l else max, count + 1)
  {
    hide LastMeasured;
    hide SinceZero;
    hide Has;
    Snoc(turns, t);
    NothingHas();
    forall l: nat
      ensures Has(turns + [t], l) <==> Has(turns, l) || t.latency == Some(l)
      ensures Has(SinceZero(turns) + [t], l) <==> Has(SinceZero(turns), l) || t.latency == Some(l)
    {
      HasSnoc(turns, t, l);
      HasSnoc(SinceZero(turns), t, l);
    }
  }

  lemma NothingHas()
    ensures forall l: nat :: !Has([], l)
  {
  }

  /** Whatever the probes measure and whenever the context ends, the outcome is
      that of `Reports`. */
  method TestLatency(configured: int, turns: seq<Turn>) returns (r: Result<Measured>)
    requires |turns| == if configured < 1 then 1 else configured
    ensures Reports(Used(turns), r)
  {
    hide Tallied;
    hide Reports;
    hide Used;
    var minLatency: nat, maxLatency: nat, successCount: nat := 0, 0, 0;
    var i: nat := 0;
    NothingTallied();
    while i < |turns|
      invariant i <= |turns| && forall j :: 0 <= j < i ==> !turns[j].cancelled
      invariant minLatency <= maxLatency
      invariant i > 0 ==> turns[0].latency.Some?
      invariant Tallied(turns[..i], minLatency, maxLatency, successCount)
    {
      var t := turns[i];
      if t.cancelled {
        if minLatency > 0 {
          break;
        }
        UsedIs(turns, i);
        Conclude(turns[..i], minLatency, maxLatency, successCount, Failure("context done"));
        return Failure("context done");
      }
      assert turns[..i + 1] == turns[..i] + [t];
      TalliedNext(turns[..i], t, minLatency, maxLatency, successCount);
      if t.latency.None? {
        if i == 0 {
          FirstFails(turns);
          return Failure("first probe failed");
        }
      } else {
        var latency := t.latency.value;
        if minLatency == 0 || latency < minLatency {
          minLatency := latency;
        }
        if latency > maxLatency {
          maxLatency := latency;
        }
        successCount := successCount + 1;
      }
      i := i + 1;
    }
    if minLatency == 0 {
      r := Failure("all probes failed");
    } else {
      r := Success(Measured(minLatency, if successCount > 1 then maxLatency - minLatency else 0));
    }
    UsedIs(turns, i);
    Conclude(turns[..i], minLatency, maxLatency, successCount, r);
  }

  lemma NothingTallied()
    ensures Tallied([], 0, 0, 0)
  {
  }

  lemma FirstFails(turns: seq<Turn>)
    requires turns != [] && !turns[0].cancelled && turns[0].latency.None?
    ensures Reports(Used(turns), Failure("first probe failed"))
  {
  }

  lemma {:induction false} UsedIs(turns: seq<Turn>, i: nat)
    requires i <= |turns| && (i < |turns| ==> turns[i].cancelled)
    requires forall j :: 0 <= j < i ==> !turns[j].cancelled
    ensures Used(turns) == turns[..i]
  {
    if i > 0 {
      UsedIs(turns[1..], i - 1);
      assert turns[..i] == [turns[0]] + turns[1..][..i - 1];
    }
  }

  /** What the accumulators amount to at the end. */
  lemma Conclude(used: seq<Turn>, min: nat, max: nat, count: nat, r: Result<Measured>)
    requires Tallied(used, min, max, count) && (used != [] ==> used[0].latency.Some?)
    requires match r
             case Failure(_) => min == 0
             case Success(m) => min > 0 && m == Measured(min, if count > 1 then max - min else 0)
    ensures Reports(used, r)
  {
    if used != [] {
      FirstMeasured(used);
    }
  }

  lemma {:induction false} FirstMeasured(used: seq<Turn>)
    requires used != [] && used[0].latency.Some?
    ensures LastMeasured(used).Some? && Has(used, used[0].latency.value)
  {
    if |used| > 1 {
      FirstMeasured(used[..|used| - 1]);
    }
  }

  /** `Reports` leaves no choice. */
  lemma ReportsOneThing(used: seq<Turn>, r: Result<Measured>, q: Result<Measured>)
    requires Reports(used, r) && Reports(used, q)
    ensures r.Success? <==> q.Success?
    ensures r.Success? ==> r == q
  {
  }

  /** The report is about all that was measured exactly when nothing measured 0. */
  lemma {:induction false} LeastUnlessZero(used: seq<Turn>, r: Result<Measured>)
    requires Reports(used, r) && r.Success?
    ensures IsLeast(used, r.value.latency) <==> !Has(used, 0)
  {
    SinceZeroNotZero(used);
  }

  lemma {:induction false} SinceZeroNotZero(used: seq<Turn>)
    ensures !Has(SinceZero(used), 0)
    ensures !Has(used, 0) ==> SinceZero(used) == used
  {
    if used != [] {
      var front, last := used[..|used| - 1], used[|used| - 1];
      SinceZeroNotZero(front);
      assert used == front + [last];
      HasSnoc(front, last, 0);
      HasSnoc(SinceZero(front), last, 0);
    }
  }

  /** A relay that answered twice, the second time in no measurable time, counts
      as unreachable. */
  lemma ZeroLosesRelay(r: Result<Measured>)
    requires Reports([Turn(false, Some(5)), Turn(false, Some(0))], r)
    ensures r.Failure?
  {
    Snoc([Turn(false, Some(5))], Turn(false, Some(0)));
  }

  /** With one more answer it is back, but 5 and 0 are forgotten and no jitter is seen. */
  lemma ZeroForgotten(r: Result<Measured>)
    requires Reports([Turn(false, Some(5)), Turn(false, Some(0)), Turn(false, Some(7))], r)
    ensures r == Success(Measured(7, 0))
  {
    var a, b, c := Turn(false, Some(5)), Turn(false, Some(0)), Turn(false, Some(7));
    Snoc([a, b], c);
    Snoc([a], b);
    assert [a, b] + [c] == [a, b, c] && [a] + [b] == [a, b];
    assert [a, b, c][0] == a && [a, b, c][2].latency == Some(7);
    assert Has([a, b, c], 7);
  }
}
