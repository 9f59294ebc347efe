/** The adaptive TCP pre-filter (tcpPreFilter in pkg/relay/discovery.go). A relay
    is its position in the input. */
module PreFilter {
  import opened Counting
  import opened Numerals
  import opened Sorting

  const DEFAULT_CONCURRENCY: nat := 500
  const ADAPTIVE_MIN_RELAYS: nat := 10
  const ADAPTIVE_MAX_RETRIES: nat := 3
  const ADAPTIVE_TIMEOUT_MULTIPLIER: nat := 2

  /** `Skipped`: the goroutine saw the cancelled context before it got a slot. */
  datatype Outcome = Reached(rtt: int) | Failed | Skipped

  datatype Probe = Probe(index: nat, attempt: nat, timeout: int, outcome: Outcome)

  datatype Found = Found(index: nat, rtt: int)

  /** The network and the caller's context, which can be cancelled at any moment
      and stays cancelled. `running` are the probes under way, and `peak` the most
      there ever were at once. */
  class Network {
    var cancelled: bool
    var running: set<nat>
    ghost var peak: nat
    ghost var log: seq<Probe>

    constructor ()
      ensures log == [] && running == {} && peak == 0
    {
      cancelled := *;
      log, running, peak := [], {}, 0;
    }

    method Err() returns (done: bool)
      modifies this`cancelled
      ensures old(cancelled) ==> cancelled
      ensures done == cancelled
    {
      if * {
        cancelled := true;
      }
      done := cancelled;
    }

    /** A goroutine has its slot. */
    method Start(index: nat)
      requires index !in running
      modifies this`running, this`peak
      ensures running == old(running) + {index}
      ensures peak == if old(peak) < |running| then |running| else old(peak)
    {
      running := running + {index};
      if peak < |running| {
        peak := |running|;
      }
    }

    /** Its probe ends, and it gives the slot back. */
    method TcpProbe(index: nat, attempt: nat, timeout: int) returns (outcome: Outcome)
      requires index in running
      modifies this`cancelled, this`running, this`log
      ensures running == old(running) - {index}
      ensures log == old(log) + [Probe(index, attempt, timeout, outcome)]
      ensures old(cancelled) ==> cancelled
      ensures !outcome.Skipped?
    {
      var _ := Err();
      outcome := Failed;
      if * {
        var rtt: int := *;
        outcome := Reached(rtt);
      }
      running := running - {index};
      log := log + [Probe(index, attempt, timeout, outcome)];
    }

    /** A goroutine that waits for a slot sees the cancelled context. */
    method Skip(index: nat, attempt: nat, timeout: int) returns (outcome: Outcome)
      requires cancelled
      modifies this`log
      ensures outcome == Skipped && log == old(log) + [Probe(index, attempt, timeout, outcome)]
    {
      outcome := Skipped;
      log := log + [Probe(index, attempt, timeout, outcome)];
    }
  }

  /** The successes of a log, in the order in which they came. */
  function Successes(log: seq<Probe>): (fs: seq<Found>)
  {
    if log == [] then []
    else
      var p := log[|log| - 1];
      Successes(log[..|log| - 1]) + if p.outcome.Reached? then [Found(p.index, p.outcome.rtt)] else []
  }

  lemma SuccessesSnoc(log: seq<Probe>, p: Probe)
    ensures Successes(log + [p]) == Successes(log) + if p.outcome.Reached? then [Found(p.index, p.outcome.rtt)] else []
  {
    assert (log + [p])[..|log|] == log;
  }

  /** How many relays were reached in the rounds before `attempt`. */
  function ReachedBefore(log: seq<Probe>, attempt: nat): nat {
    Count(log, (p: Probe) => p.outcome.Reached? && p.attempt < attempt)
  }

  ghost predicate WasReached(log: seq<Probe>, x: nat) {
    exists p :: p in log && p.index == x && p.outcome.Reached?
  }

  ghost predicate Tried(log: seq<Probe>, x: nat, attempt: nat) {
    exists p :: p in log && p.index == x && p.attempt == attempt
  }

  predicate Enough(found: nat, topN: nat) {
    found >= ADAPTIVE_MIN_RELAYS || found >= topN
  }

  /** Only a relay that failed is probed again, and then in a later round. */
  ghost predicate RetriesFailed(log: seq<Probe>) {
    forall i, j :: 0 <= i < j < |log| && log[i].index == log[j].index ==>
      log[i].attempt < log[j].attempt && log[i].outcome.Failed?
  }

  /** What every log of `rounds` rounds looks like: attempt `a` runs under the
      timeout times 2^a, rounds come in order, only a relay that failed is probed
      again, and a retry starts only while too few have been reached. */
  ghost predicate Disciplined(log: seq<Probe>, timeout: int, rounds: nat, topN: nat) {
    && (forall p :: p in log ==>
          p.attempt < rounds && p.timeout == timeout * Pow(ADAPTIVE_TIMEOUT_MULTIPLIER, p.attempt))
    && (forall i, j :: 0 <= i < j < |log| ==> log[i].attempt <= log[j].attempt)
    && RetriesFailed(log)
    && (forall a: nat :: 1 <= a < rounds ==> !Enough(ReachedBefore(log, a), topN))
  }

  predicate NoRepeats(xs: seq<nat>) {
    forall i, j :: 0 <= i < j < |xs| ==> xs[i] != xs[j]
  }

  /** Every probe of these relays has failed so far. */
  ghost predicate OnlyFailed(log: seq<Probe>, xs: seq<nat>) {
    forall p :: p in log && p.index in xs ==> p.outcome.Failed?
  }

  /** These relays were probed in each of the first `rounds` rounds. */
  ghost predicate AllTried(log: seq<Probe>, xs: seq<nat>, rounds: nat) {
    forall x, a: nat :: x in xs && a < rounds ==> Tried(log, x, a)
  }

  /** The relays still to be probed after `rounds` rounds: no relay twice, each
      failed in every round. */
  ghost predicate StillOpen(log: seq<Probe>, pending: seq<nat>, rounds: nat, relays: nat) {
    && NoRepeats(pending) && OnlyFailed(log, pending) && AllTried(log, pending, rounds)
    && (forall x :: x in pending ==> x < relays)
    && (forall p :: p in log ==> p.attempt < rounds && p.index < relays)
  }

  /** No relay is lost: each is still to be probed or has been reached. */
  ghost predicate Covered(log: seq<Probe>, pending: seq<nat>, relays: nat) {
    forall x: nat :: x < relays ==> x in pending || WasReached(log, x)
  }

  lemma DisciplinedSnoc(log: seq<Probe>, p: Probe, timeout: int, rounds: nat, topN: nat)
    requires Disciplined(log, timeout, rounds, topN)
    requires rounds > 0 && p.attempt == rounds - 1
    requires p.timeout == timeout * Pow(ADAPTIVE_TIMEOUT_MULTIPLIER, p.attempt)
    requires forall q :: q in log && q.index == p.index ==> q.attempt < p.attempt && q.outcome.Failed?
    ensures Disciplined(log + [p], timeout, rounds, topN)
  {
    var log' := log + [p];
    forall i, j | 0 <= i < j < |log'|
      ensures log'[i].attempt <= log'[j].attempt
      ensures log'[i].index == log'[j].index ==> log'[i].attempt < log'[j].attempt && log'[i].outcome.Failed?
    {
      assert log'[i] == log[i] && log[i] in log;
      if j == |log| {
        assert log'[j] == p;
      }
    }
    forall a: nat | 1 <= a < rounds
      ensures !Enough(ReachedBefore(log', a), topN)
    {
      CountAppend(log, p, (p: Probe) => p.outcome.Reached? && p.attempt < a);
      assert ReachedBefore(log', a) == ReachedBefore(log, a);
    }
  }

  lemma TriedGrows(log: seq<Probe>, p: Probe, x: nat, attempt: nat)
    requires Tried(log, x, attempt) || (p.index == x && p.attempt == attempt)
    ensures Tried(log + [p], x, attempt)
  {
    var q :| q in log + [p] && q.index == x && q.attempt == attempt;
  }

  lemma ReachedGrows(log: seq<Probe>, p: Probe, x: nat)
    requires WasReached(log, x) || (p.index == x && p.outcome.Reached?)
    ensures WasReached(log + [p], x)
  {
    var q :| q in log + [p] && q.index == x && q.outcome.Reached?;
  }

  /** How many probes may run at once. */
  function Slots(maxConcurrent: int): nat {
    if maxConcurrent <= 0 then DEFAULT_CONCURRENCY else maxConcurrent
  }

  /** The log and the failures so far in a round in which the relays of `open` have
      not been recorded yet. */
  ghost predicate InRound(log: seq<Probe>, open: set<nat>, pending: seq<nat>, failed: seq<nat>,
                          attempt: nat, relays: nat) {
    && NoRepeats(failed) && OnlyFailed(log, failed) && AllTried(log, pending, attempt)
    && (forall x :: x in pending ==> x < relays)
    && (forall p :: p in log ==> p.attempt <= attempt && p.index < relays)
    && (forall x :: x in failed ==> x in pending && x !in open && Tried(log, x, attempt))
    && (forall x :: x in open ==> x in pending)
    && (forall p :: p in log && p.index in open ==> p.attempt < attempt && p.outcome.Failed?)
  }

  /** No pending relay has been lost. */
  ghost predicate Accounted(log: seq<Probe>, open: set<nat>, pending: seq<nat>, failed: seq<nat>) {
    forall x :: x in pending ==> x in open || x in failed || WasReached(log, x)
  }

  lemma RoundStarts(log: seq<Probe>, pending: seq<nat>, attempt: nat, relays: nat)
    requires StillOpen(log, pending, attempt, relays)
    ensures InRound(log, (set x | x in pending), pending, [], attempt, relays)
    ensures Accounted(log, (set x | x in pending), pending, [])
  {
  }

  lemma RoundRecords(log: seq<Probe>, p: Probe, open: set<nat>, pending: seq<nat>, failed: seq<nat>, relays: nat)
    requires InRound(log, open, pending, failed, p.attempt, relays) && p.index in open
    ensures var failed' := if p.outcome.Failed? then failed + [p.index] else failed;
            && InRound(log + [p], open - {p.index}, pending, failed', p.attempt, relays)
            && (Accounted(log, open, pending, failed) && !p.outcome.Skipped? ==>
                  Accounted(log + [p], open - {p.index}, pending, failed'))
  {
    var log' := log + [p];
    var failed' := if p.outcome.Failed? then failed + [p.index] else failed;
    forall x, a: nat | Tried(log, x, a)
      ensures Tried(log', x, a)
    {
      TriedGrows(log, p, x, a);
    }
    forall x | WasReached(log, x)
      ensures WasReached(log', x)
    {
      ReachedGrows(log, p, x);
    }
    TriedGrows(log, p, p.index, p.attempt);
    if p.outcome.Reached? {
      ReachedGrows(log, p, p.index);
    }
    assert forall q :: q in log' <==> q in log || q == p;
    assert forall x :: x in failed' ==> x in failed || x == p.index;
  }

  lemma RoundEnds(log: seq<Probe>, pending: seq<nat>, failed: seq<nat>, attempt: nat, relays: nat)
    requires InRound(log, {}, pending, failed, attempt, relays)
    ensures StillOpen(log, failed, attempt + 1, relays) && forall x :: x in failed ==> x in pending
    ensures Accounted(log, {}, pending, failed) ==> forall x :: x in pending ==> x in failed || WasReached(log, x)
  {
  }

  /** The relays that are not recorded yet: some wait for a slot, the others run. */
  ghost predicate Split(open: set<nat>, waiting: set<nat>, running: set<nat>) {
    waiting !! running && open == waiting + running
  }

  lemma NobodyRuns(open: set<nat>)
    ensures Split(open, open, {})
  {
  }

  lemma SplitFacts(open: set<nat>, waiting: set<nat>, running: set<nat>)
    requires Split(open, waiting, running)
    ensures waiting == {} && running == {} <==> open == {}
    ensures forall x :: x in waiting ==> x in open && x !in running
    ensures forall x :: x in running ==> x in open
    ensures forall x :: x in waiting ==> Split(open, waiting - {x}, running + {x})
    ensures forall x :: x in waiting ==> Split(open - {x}, waiting - {x}, running)
    ensures forall x :: x in running ==> Split(open - {x}, waiting, running - {x})
  {
  }

  datatype Event = Started | Ended(index: nat, outcome: Outcome)

  /** The next thing that happens in a round: a waiting goroutine gets a slot, or
      gives up under a cancelled context, or a running one ends. */
  method Advance(net: Network, waiting: set<nat>, attempt: nat, timeout: int, maxConcurrent: int, ghost open: set<nat>)
    returns (waiting': set<nat>, event: Event)
    requires Split(open, waiting, net.running) && open != {}
    requires |net.running| <= Slots(maxConcurrent) && net.peak <= Slots(maxConcurrent)
    modifies net
    ensures |net.running| <= Slots(maxConcurrent) && net.peak <= Slots(maxConcurrent)
    ensures old(net.cancelled) ==> net.cancelled
    ensures match event
            case Started => net.log == old(net.log) && Split(open, waiting', net.running) && |waiting'| < |waiting|
            case Ended(x, outcome) =>
              && x in open && Split(open - {x}, waiting', net.running)
              && net.log == old(net.log) + [Probe(x, attempt, timeout, outcome)]
              && (outcome.Skipped? ==> net.cancelled)
  {
    hide Split;
    SplitFacts(open, waiting, net.running);
    var done := net.Err();
    var skip: bool, start: bool := *, *;
    if waiting != {} && done && skip {
      var idx :| idx in waiting;
      var outcome := net.Skip(idx, attempt, timeout);
      return waiting - {idx}, Ended(idx, outcome);
    }
    if waiting != {} && |net.running| < Slots(maxConcurrent) && (net.running == {} || start) {
      var idx :| idx in waiting;
      net.Start(idx);
      return waiting - {idx}, Started;
    }
    var idx :| idx in net.running;
    var outcome := net.TcpProbe(idx, attempt, timeout);
    return waiting, Ended(idx, outcome);
  }

  /** One round: every pending relay has a goroutine, which waits for one of the
      slots, probes, and records under the lock what came out. They start and end
      in any order, never more at once than there are slots. */
  method ProbeRound(net: Network, pending: seq<nat>, attempt: nat, timeout: int, maxConcurrent: int,
                    ghost first: int, ghost topN: nat, ghost relays: nat)
    returns (newSuccessful: seq<Found>, stillPending: seq<nat>)
    requires net.running == {} && net.peak <= Slots(maxConcurrent)
    requires StillOpen(net.log, pending, attempt, relays)
    requires Disciplined(net.log, first, attempt + 1, topN)
    requires timeout == first * Pow(ADAPTIVE_TIMEOUT_MULTIPLIER, attempt)
    modifies net
    ensures net.running == {} && net.peak <= Slots(maxConcurrent)
    ensures old(net.cancelled) ==> net.cancelled
    ensures old(net.log) <= net.log && Disciplined(net.log, first, attempt + 1, topN)
    ensures Successes(net.log) == Successes(old(net.log)) + newSuccessful
    ensures StillOpen(net.log, stillPending, attempt + 1, relays) && (forall x :: x in stillPending ==> x in pending)
    ensures !net.cancelled ==> forall x :: x in pending ==> x in stillPending || WasReached(net.log, x)
  {
    hide Disciplined;
    hide Successes;
    hide Pow;
    hide StillOpen;
    hide InRound;
    hide Accounted;
    hide Split;
    newSuccessful, stillPending := [], [];
    var waiting := set x | x in pending;
    ghost var open := waiting;
    RoundStarts(net.log, pending, attempt, relays);
    NobodyRuns(open);
    while waiting != {} || net.running != {}
      invariant Split(open, waiting, net.running)
      invariant |net.running| <= Slots(maxConcurrent) && net.peak <= Slots(maxConcurrent)
      invariant old(net.cancelled) ==> net.cancelled
      invariant old(net.log) <= net.log && Disciplined(net.log, first, attempt + 1, topN)
      invariant Successes(net.log) == Successes(old(net.log)) + newSuccessful
      invariant InRound(net.log, open, pending, stillPending, attempt, relays)
      invariant !net.cancelled ==> Accounted(net.log, open, pending, stillPending)
      decreases |open|, |waiting|
    {
      SplitFacts(open, waiting, net.running);
      ghost var log := net.log;
      var event;
      waiting, event := Advance(net, waiting, attempt, timeout, maxConcurrent, open);
      if event.Started? {
        continue;
      }
      var idx, outcome := event.index, event.outcome;
      ghost var p := Probe(idx, attempt, timeout, outcome);
      RecordDisciplined(log, p, open, pending, stillPending, relays, first, topN);
      SuccessesSnoc(log, p);
      RoundRecords(log, p, open, pending, stillPending, relays);
      open := open - {idx};
      match outcome
      case Reached(rtt) =>
        assert Successes(old(net.log)) + newSuccessful + [Found(idx, rtt)] ==
               Successes(old(net.log)) + (newSuccessful + [Found(idx, rtt)]);
        newSuccessful := newSuccessful + [Found(idx, rtt)];
      case Failed => stillPending := stillPending + [idx];
      case Skipped =>
    }
    SplitFacts(open, waiting, net.running);
    RoundEnds(net.log, pending, stillPending, attempt, relays);
  }

  lemma RecordDisciplined(log: seq<Probe>, p: Probe, open: set<nat>, pending: seq<nat>, failed: seq<nat>,
                          relays: nat, first: int, topN: nat)
    requires InRound(log, open, pending, failed, p.attempt, relays) && p.index in open
    requires Disciplined(log, first, p.attempt + 1, topN)
    requires p.timeout == first * Pow(ADAPTIVE_TIMEOUT_MULTIPLIER, p.attempt)
    ensures Disciplined(log + [p], first, p.attempt + 1, topN)
  {
    hide Disciplined;
    DisciplinedSnoc(log, p, first, p.attempt + 1, topN);
  }

  lemma {:induction false} AllReachedBefore(log: seq<Probe>, attempt: nat)
    requires forall p :: p in log ==> p.attempt < attempt
    ensures ReachedBefore(log, attempt) == |Successes(log)|
  {
    var early := (p: Probe) => p.outcome.Reached? && p.attempt < attempt;
    if log == [] {
      CountZero(log, early);
    } else {
      var k := |log| - 1;
      AllReachedBefore(log[..k], attempt);
      CountAppend(log[..k], log[k], early);
      assert log == log[..k] + [log[k]];
    }
  }

  /** Another round may start once the earlier ones reached too few. */
  lemma NextRound(log: seq<Probe>, timeout: int, rounds: nat, topN: nat)
    requires Disciplined(log, timeout, rounds, topN)
    requires rounds > 0 ==> !Enough(|Successes(log)|, topN)
    ensures Disciplined(log, timeout, rounds + 1, topN)
  {
    AllReachedBefore(log, rounds);
  }

  /** How many relays the filter keeps at most. */
  function Keep(relays: nat, topN: int): nat {
    if topN <= 0 || topN > relays then relays else topN
  }

  function Indices(fs: seq<Found>): seq<nat> {
    seq(|fs|, i requires 0 <= i < |fs| => fs[i].index)
  }

  /** `filtered` lists the `n` smallest round trips of what was found (all, if
      there are no more), in order. */
  ghost predicate Fastest(found: seq<Found>, n: nat, filtered: seq<nat>) {
    exists sorted ::
      && Rearranged(found, sorted) && Sorted(sorted, (f: Found) => f.rtt)
      && filtered == Indices(sorted[..if |sorted| > n then n else |sorted|])
  }

  /** How many of the relays reached are kept. */
  function KeptOf(reached: nat, topN: int): nat {
    if 0 < topN < reached then topN else reached
  }

  /** A retry starts only while fewer than ten, and fewer than `topN`, were reached. */
  ghost predicate RetriesOnlyForFew(log: seq<Probe>, rounds: nat, topN: int) {
    forall a: nat :: 1 <= a < rounds ==> ReachedBefore(log, a) < 10 && (topN > 0 ==> ReachedBefore(log, a) < topN)
  }

  lemma {:induction false} Pigeonhole(xs: seq<nat>, n: nat)
    requires NoRepeats(xs) && forall i :: 0 <= i < |xs| ==> xs[i] < n
    ensures |xs| <= n
  {
    if xs != [] {
      assert xs[0] < n;
    }
    if n > 0 && n - 1 in xs {
      var k :| 0 <= k < |xs| && xs[k] == n - 1;
      Pigeonhole(xs[..k] + xs[k + 1..], n - 1);
    } else if xs != [] && n > 0 {
      assert forall i :: 0 <= i < |xs| ==> xs[i] in xs;
      Pigeonhole(xs, n - 1);
    }
  }

  lemma ReachedAtMost(log: seq<Probe>, relays: nat)
    requires RetriesFailed(log) && forall p :: p in log ==> p.index < relays
    ensures |Successes(log)| <= relays
    ensures |Successes(log)| == relays ==> forall x: nat :: x < relays ==> WasReached(log, x)
  {
    hide RetriesFailed;
    var found := Successes(log);
    var xs := Indices(found);
    SucceedsOnce(log);
    forall i | 0 <= i < |xs|
      ensures xs[i] < relays && WasReached(log, xs[i])
    {
      SuccessesOf(log, found[i]);
    }
    Pigeonhole(xs, relays);
    if |found| == relays {
      AllThere(xs, relays);
      forall x: nat | x < relays
        ensures WasReached(log, x)
      {
        assert x in xs;
        var i :| 0 <= i < |xs| && xs[i] == x;
      }
    }
  }

  lemma KeptCount(found: seq<Found>, relays: nat, topN: int, filtered: seq<nat>)
    requires Fastest(found, Keep(relays, topN), filtered) && |found| <= relays
    ensures |filtered| == KeptOf(|found|, topN)
  {
    var n := Keep(relays, topN);
    var sorted :|
      && Rearranged(found, sorted) && Sorted(sorted, (f: Found) => f.rtt)
      && filtered == Indices(sorted[..if |sorted| > n then n else |sorted|]);
    RearrangedFacts(found, sorted);
  }

  lemma EnoughMeans(reached: nat, relays: nat, topN: int)
    ensures !Enough(reached, Keep(relays, topN)) ==> reached < 10 && (topN > 0 ==> reached < topN)
    ensures Enough(reached, Keep(relays, topN)) && reached <= relays ==>
              reached >= 10 || 0 < topN <= reached || reached == relays
  {
  }

  /** The counts that `topN` stands for, whatever it is. */
  lemma CountsByTopN(log: seq<Probe>, timeout: int, rounds: nat, relays: nat, topN: int, filtered: seq<nat>)
    requires Disciplined(log, timeout, rounds, Keep(relays, topN)) && forall p :: p in log ==> p.index < relays
    requires Fastest(Successes(log), Keep(relays, topN), filtered)
    ensures |Successes(log)| <= relays && |filtered| == KeptOf(|Successes(log)|, topN)
    ensures RetriesOnlyForFew(log, rounds, topN)
    ensures Enough(|Successes(log)|, Keep(relays, topN)) ==>
              || |Successes(log)| >= 10 || 0 < topN <= |Successes(log)|
              || forall x: nat :: x < relays ==> WasReached(log, x)
  {
    hide Fastest;
    hide Keep;
    hide Enough;
    hide Successes;
    hide ReachedBefore;
    ReachedAtMost(log, relays);
    KeptCount(Successes(log), relays, topN, filtered);
    EnoughMeans(|Successes(log)|, relays, topN);
    forall a: nat | 1 <= a < rounds
      ensures ReachedBefore(log, a) < 10 && (topN > 0 ==> ReachedBefore(log, a) < topN)
    {
      EnoughMeans(ReachedBefore(log, a), relays, topN);
    }
  }

  /** Different numbers below `n`, and `n` of them: all are there. */
  lemma AllThere(xs: seq<nat>, n: nat)
    requires NoRepeats(xs) && |xs| == n && forall i :: 0 <= i < |xs| ==> xs[i] < n
    ensures forall x: nat :: x < n ==> x in xs
  {
    forall x: nat | x < n
      ensures x in xs
    {
      if x !in xs {
        assert forall i :: 0 <= i < |xs| ==> xs[i] in xs;
        assert forall i :: 0 <= i < n ==> (xs + [x])[i] == xs[i];
        Pigeonhole(xs + [x], n);
      }
    }
  }

  method TcpPreFilter(net: Network, relays: nat, timeout: int, maxConcurrent: int, topN: int)
    returns (filtered: seq<nat>, ghost rounds: nat)
    requires net.log == [] && net.running == {} && net.peak == 0
    modifies net
    ensures net.running == {} && net.peak <= if maxConcurrent <= 0 then 500 else maxConcurrent
    ensures rounds <= 4
    ensures Disciplined(net.log, timeout, rounds, Keep(relays, topN))
    ensures RetriesOnlyForFew(net.log, rounds, topN)
    ensures |Successes(net.log)| <= relays && |filtered| == KeptOf(|Successes(net.log)|, topN)
    ensures forall p :: p in net.log ==> p.index < relays
    ensures Fastest(Successes(net.log), Keep(relays, topN), filtered)
    ensures !net.cancelled ==> forall x: nat :: x < relays ==> WasReached(net.log, x) || AllTried(net.log, [x], rounds)
    ensures !net.cancelled ==>
              || rounds == 4
              || |Successes(net.log)| >= 10 || 0 < topN <= |Successes(net.log)|
              || forall x: nat :: x < relays ==> WasReached(net.log, x)
  {
    hide Disciplined;
    hide Successes;
    hide Pow;
    hide Keep;
    hide Enough;
    hide Fastest;
    hide StillOpen;
    hide Covered;
    rounds := 0;
    var keep := Keep(relays, topN);
    NothingYet(timeout, keep);
    var successful: seq<Found> := [];
    var pending: seq<nat> := seq(relays, (i: nat) => i);
    Everyone(pending, relays);
    if relays == 0 {
      FastestIs([], [], keep);
      CountsByTopN([], timeout, 0, relays, topN, []);
      SlotsAre(maxConcurrent);
      return [], 0;
    }
    Doubled(timeout, 0);
    var currentTimeout := timeout;
    var attempt: nat := 0;
    while attempt <= ADAPTIVE_MAX_RETRIES
      invariant attempt == rounds && rounds <= ADAPTIVE_MAX_RETRIES + 1
      invariant currentTimeout == timeout * Pow(ADAPTIVE_TIMEOUT_MULTIPLIER, if attempt == 0 then 0 else attempt - 1)
      invariant net.running == {} && net.peak <= Slots(maxConcurrent)
      invariant successful == Successes(net.log)
      invariant Disciplined(net.log, timeout, rounds, keep)
      invariant StillOpen(net.log, pending, rounds, relays)
      invariant !net.cancelled ==> Covered(net.log, pending, relays)
    {
      var done := net.Err();
      if done {
        break;
      }
      if attempt > 0 && Enough(|successful|, keep) {
        break;
      }
      Doubled(timeout, attempt);
      if attempt > 0 {
        currentTimeout := currentTimeout * ADAPTIVE_TIMEOUT_MULTIPLIER;
      }
      NextRound(net.log, timeout, rounds, keep);
      ghost var log := net.log;
      var newSuccessful, stillPending := ProbeRound(net, pending, attempt, currentTimeout, maxConcurrent,
                                                    timeout, keep, relays);
      if !net.cancelled {
        CoveredNext(log, net.log, pending, stillPending, relays);
      }
      successful, pending := successful + newSuccessful, stillPending;
      attempt, rounds := attempt + 1, rounds + 1;
      if |pending| == 0 {
        break;
      }
    }
    Conclusions(net.log, pending, rounds, relays);
    var sorted := SortBy(successful, (f: Found) => f.rtt);
    FastestIs(successful, sorted, keep);
    filtered := Indices(if |sorted| > keep then sorted[..keep] else sorted);
    CountsByTopN(net.log, timeout, rounds, relays, topN, filtered);
    SlotsAre(maxConcurrent);
  }

  lemma SlotsAre(maxConcurrent: int)
    ensures Slots(maxConcurrent) == if maxConcurrent <= 0 then 500 else maxConcurrent
  {
  }

  lemma Everyone(pending: seq<nat>, relays: nat)
    requires pending == seq(relays, (i: nat) => i)
    ensures StillOpen([], pending, 0, relays) && Covered([], pending, relays)
  {
    forall x: nat | x < relays
      ensures x in pending
    {
      assert pending[x] == x;
    }
  }

  lemma CoveredNext(log: seq<Probe>, longer: seq<Probe>, pending: seq<nat>, stillPending: seq<nat>, relays: nat)
    requires log <= longer && Covered(log, pending, relays)
    requires forall x :: x in pending ==> x in stillPending || WasReached(longer, x)
    ensures Covered(longer, stillPending, relays)
  {
    assert forall p :: p in log ==> p in longer;
    forall x: nat | x < relays && x !in pending
      ensures WasReached(longer, x)
    {
      assert WasReached(log, x);
    }
  }

  lemma Conclusions(log: seq<Probe>, pending: seq<nat>, rounds: nat, relays: nat)
    requires StillOpen(log, pending, rounds, relays)
    ensures forall p :: p in log ==> p.index < relays
    ensures Covered(log, pending, relays) ==>
              forall x: nat :: x < relays ==> WasReached(log, x) || AllTried(log, [x], rounds)
    ensures Covered(log, pending, relays) && pending == [] ==> forall x: nat :: x < relays ==> WasReached(log, x)
  {
  }

  lemma FastestIs(found: seq<Found>, sorted: seq<Found>, n: nat)
    requires Rearranged(found, sorted) && Sorted(sorted, (f: Found) => f.rtt)
    ensures Fastest(found, n, Indices(if |sorted| > n then sorted[..n] else sorted))
  {
    assert sorted[..|sorted|] == sorted;
  }

  lemma NothingYet(timeout: int, topN: nat)
    ensures Disciplined([], timeout, 0, topN) && Successes([]) == []
  {
  }

  lemma Doubled(timeout: int, attempt: nat)
    ensures Pow(ADAPTIVE_TIMEOUT_MULTIPLIER, 0) == 1
    ensures attempt > 0 ==>
              timeout * Pow(ADAPTIVE_TIMEOUT_MULTIPLIER, attempt - 1) * ADAPTIVE_TIMEOUT_MULTIPLIER ==
              timeout * Pow(ADAPTIVE_TIMEOUT_MULTIPLIER, attempt)
  {
  }

  /** Every timeout is one of t, 2t, 4t and 8t, and grows from round to round. */
  lemma TimeoutsUsed(log: seq<Probe>, timeout: int, rounds: nat, topN: nat, p: Probe)
    requires Disciplined(log, timeout, rounds, topN) && rounds <= 4 && p in log
    ensures p.timeout == [timeout, 2 * timeout, 4 * timeout, 8 * timeout][p.attempt]
  {
    var two: nat := 2;
    assert Pow(two, 0) == 1 && Pow(two, 1) == 2 && Pow(two, 2) == 4 && Pow(two, 3) == 8;
  }

  /** The successes are the probes that reached a relay. */
  lemma {:induction false} SuccessesOf(log: seq<Probe>, f: Found)
    ensures f in Successes(log) <==> exists p :: p in log && p.outcome == Reached(f.rtt) && p.index == f.index
  {
    if log != [] {
      var rest, p := log[..|log| - 1], log[|log| - 1];
      SuccessesOf(rest, f);
      assert log == rest + [p];
    }
  }

  /** The kept relays are different ones that were reached. */
  lemma KeptDistinct(log: seq<Probe>, n: nat, filtered: seq<nat>)
    requires RetriesFailed(log) && Fastest(Successes(log), n, filtered)
    ensures NoRepeats(filtered) && forall x :: x in filtered ==> WasReached(log, x)
  {
    var found, index := Successes(log), (f: Found) => f.index;
    var sorted :|
      && Rearranged(found, sorted) && Sorted(sorted, (f: Found) => f.rtt)
      && filtered == Indices(sorted[..if |sorted| > n then n else |sorted|]);
    SucceedsOnce(log);
    assert forall i :: 0 <= i < |found| ==> Indices(found)[i] == found[i].index;
    RearrangedDiffer(found, sorted, index);
    RearrangedFacts(found, sorted);
    forall i | 0 <= i < |filtered|
      ensures WasReached(log, filtered[i])
    {
      assert sorted[i] in found;
      SuccessesOf(log, sorted[i]);
    }
  }

  /** No relay succeeds twice. */
  lemma {:induction false} SucceedsOnce(log: seq<Probe>)
    requires RetriesFailed(log)
    ensures NoRepeats(Indices(Successes(log)))
  {
    if log != [] {
      var k := |log| - 1;
      var rest, p := log[..k], log[k];
      SucceedsOnce(rest);
      var fs := Successes(rest);
      forall i | 0 <= i < |fs|
        ensures fs[i].index != p.index
      {
        SuccessesOf(rest, fs[i]);
        var q :| q in rest && q.outcome == Reached(fs[i].rtt) && q.index == fs[i].index;
        var j :| 0 <= j < k && rest[j] == q;
        assert log[j] == q;
      }
      assert forall i :: 0 <= i < |fs| ==> Indices(fs)[i] == fs[i].index;
    }
  }
}
