/** Both phases of choosing relays together (TestAllAndSort in
    pkg/relay/discovery.go). A relay is its position in the input. */
module Discovery {
  import opened Text
  import opened Sorting
  import opened PreFilter
  import opened Selection

  /** What testing each relay with TLS would measure, None when it would fail. */
  type Truth = seq<Option<(int, int)>>

  predicate Candidates(candidates: seq<nat>, truth: Truth) {
    NoRepeats(candidates) && forall i :: 0 <= i < |candidates| ==> candidates[i] < |truth|
  }

  /** A test measures what is true; it may fail once the tests are being cancelled. */
  predicate Allowed(s: State, w: nat, result: Option<(int, int)>, candidates: seq<nat>, truth: Truth)
    requires Candidates(candidates, truth) && w < |candidates|
  {
    result == truth[candidates[w]] || (result == None && (s.ctxDone || s.testCancelled))
  }

  ghost predicate Truthful(s: State, candidates: seq<nat>, truth: Truth)
    requires Candidates(candidates, truth)
  {
    && |s.workers| == |candidates|
    && (forall w: nat :: w < |s.workers| && (s.workers[w].Reckoning? || s.workers[w].Locking?) ==>
          Allowed(s, w, s.workers[w].result, candidates, truth))
    && (forall w :: w in s.results ==> w < |candidates| && Allowed(s, w, s.results[w], candidates, truth))
  }

  /** What was allowed stays allowed. */
  lemma StaysAllowed(s: State, step: Step, opts: Options)
    requires Selection.Enabled(s, step, opts)
    ensures s.ctxDone || s.testCancelled ==>
              Selection.Apply(s, step, opts).ctxDone || Selection.Apply(s, step, opts).testCancelled
  {
  }

  predicate Holding(p: Phase) {
    p.Reckoning? || p.Locking?
  }

  /** Where a result comes from that a worker holds after a step. */
  lemma PhaseSource(s: State, step: Step, opts: Options, w: nat)
    requires Selection.Enabled(s, step, opts) && w < |s.workers|
    ensures |Selection.Apply(s, step, opts).workers| == |s.workers|
    ensures var p := Selection.Apply(s, step, opts).workers[w];
            Holding(p) ==>
              || (Holding(s.workers[w]) && s.workers[w].result == p.result)
              || (step.Finish? && step.w == w && step.outcome == p.result)
  {
    if !step.CancelCtx? {
      PhaseFalls(s, step, opts);
      OwnPhase(s, step, opts);
      hide Selection.Apply;
      hide Selection.Enabled;
    }
  }

  lemma OwnPhase(s: State, step: Step, opts: Options)
    requires Selection.Enabled(s, step, opts) && !step.CancelCtx?
    requires step.w < |s.workers| && |Selection.Apply(s, step, opts).workers| == |s.workers|
    ensures var p := Selection.Apply(s, step, opts).workers[step.w];
            Holding(p) ==> (step.CountOne? && Holding(s.workers[step.w]) && s.workers[step.w].result == p.result)
                           || (step.Finish? && step.outcome == p.result)
  {
  }

  lemma ResultSource(s: State, step: Step, opts: Options)
    requires Selection.Enabled(s, step, opts)
    ensures Selection.Apply(s, step, opts).results ==
            if step.Record? then s.results[step.w := s.workers[step.w].result] else s.results
  {
  }

  lemma StepTruthful(s: State, step: Step, opts: Options, candidates: seq<nat>, truth: Truth)
    requires Candidates(candidates, truth) && Truthful(s, candidates, truth) && Selection.Enabled(s, step, opts)
    requires step.Finish? ==> Allowed(s, step.w, step.outcome, candidates, truth)
    ensures Truthful(Selection.Apply(s, step, opts), candidates, truth)
  {
    StaysAllowed(s, step, opts);
    ResultSource(s, step, opts);
    RecordsHeld(s, step, opts);
    hide Selection.Apply;
    hide Selection.Enabled;
    var s' := Selection.Apply(s, step, opts);
    assert |s'.workers| == |s.workers| by {
      KeepsWorkers(s, step, opts);
    }
    forall w: nat | w < |s'.workers| && (s'.workers[w].Reckoning? || s'.workers[w].Locking?)
      ensures Allowed(s', w, s'.workers[w].result, candidates, truth)
    {
      PhaseSource(s, step, opts, w);
    }
  }

  lemma RecordsHeld(s: State, step: Step, opts: Options)
    requires Selection.Enabled(s, step, opts)
    ensures step.Record? ==> step.w < |s.workers| && s.workers[step.w].Locking?
  {
  }

  lemma KeepsWorkers(s: State, step: Step, opts: Options)
    requires Selection.Enabled(s, step, opts)
    ensures |Selection.Apply(s, step, opts).workers| == |s.workers|
  {
    if !step.CancelCtx? {
      PhaseFalls(s, step, opts);
    }
  }

  /** One thing that may happen next, any of them. */
  method Next(s: State, opts: Options, candidates: seq<nat>, truth: Truth) returns (step: Step)
    requires Candidates(candidates, truth) && Truthful(s, candidates, truth) && SlotsOk(s, opts)
    requires exists w: nat :: w < |s.workers| && s.workers[w] != Gone
    ensures Selection.Enabled(s, step, opts)
    ensures step.Finish? ==> Allowed(s, step.w, step.outcome, candidates, truth)
  {
    hide SlotsOk;
    hide Truthful;
    var cancel: bool, giveUp: bool, fail: bool, longEnough: bool := *, *, *, *;
    if cancel && !s.ctxDone {
      return CancelCtx;
    }
    ghost var u: nat :| u < |s.workers| && s.workers[u] != Gone;
    ghost var v := SomeMovable(s, opts, u);
    var w: nat :| w < |s.workers| &&
                  (Movable(s, w, opts) || (s.workers[w] == WaitSlot && (s.ctxDone || s.testCancelled)));
    var p := s.workers[w];
    if p == WaitSlot && (s.ctxDone || s.testCancelled) && (giveUp || s.slots >= opts.Slots()) {
      return GiveUp(w);
    }
    if p == Testing {
      TruthfulSize(s, candidates, truth);
      return Finish(w, if fail && (s.ctxDone || s.testCancelled) then None else truth[candidates[w]]);
    }
    if p.Locking? {
      return Record(w, longEnough);
    }
    MovableMoves(s, w, opts);
    step := Ready(s, w);
  }

  lemma TruthfulSize(s: State, candidates: seq<nat>, truth: Truth)
    requires Candidates(candidates, truth) && Truthful(s, candidates, truth)
    ensures |s.workers| == |candidates|
  {
  }

  /** The second phase on the candidates, in any interleaving, until all workers are
      gone. */
  method RunTests(candidates: seq<nat>, truth: Truth, opts: Options, cancelled: bool)
    returns (s: State, ghost ss: seq<State>, ghost steps: seq<Step>)
    requires Candidates(candidates, truth)
    ensures IsRun(ss, steps, |candidates|, opts) && s == ss[|steps|]
    ensures Truthful(s, candidates, truth) && forall w: nat :: w < |s.workers| ==> s.workers[w] == Gone
    ensures cancelled ==> s.ctxDone
  {
    hide Truthful;
    hide Selection.Enabled;
    hide Selection.Apply;
    hide Measure;
    hide IsRun;
    s := Init(|candidates|);
    ss, steps := [s], [];
    RunStarts(|candidates|, opts, candidates, truth);
    if cancelled {
      ExtendRun(ss, steps, |candidates|, opts, CancelCtx);
      StepTruthful(s, CancelCtx, opts, candidates, truth);
      s := Selection.Apply(s, CancelCtx, opts);
      ss, steps := ss + [s], steps + [CancelCtx];
    }
    while exists w: nat :: w < |s.workers| && s.workers[w] != Gone
      invariant IsRun(ss, steps, |candidates|, opts) && |ss| == |steps| + 1 && s == ss[|steps|]
      invariant Truthful(s, candidates, truth) && (cancelled ==> s.ctxDone)
      decreases Measure(s)
    {
      RunInv(ss, steps, |candidates|, opts, |steps|);
      var step := Next(s, opts, candidates, truth);
      StepTruthful(s, step, opts, candidates, truth);
      Selection.StepDecreases(s, step, opts);
      ExtendRun(ss, steps, |candidates|, opts, step);
      s := Selection.Apply(s, step, opts);
      ss, steps := ss + [s], steps + [step];
    }
  }

  lemma RunStarts(relays: nat, opts: Options, candidates: seq<nat>, truth: Truth)
    requires Candidates(candidates, truth) && relays == |candidates|
    ensures IsRun([Init(relays)], [], relays, opts) && Truthful(Init(relays), candidates, truth)
    ensures Selection.Enabled(Init(relays), CancelCtx, opts)
  {
  }

  lemma ExtendRun(ss: seq<State>, steps: seq<Step>, relays: nat, opts: Options, step: Step)
    requires IsRun(ss, steps, relays, opts) && Selection.Enabled(ss[|steps|], step, opts)
    ensures IsRun(ss + [Selection.Apply(ss[|steps|], step, opts)], steps + [step], relays, opts)
    ensures ss[|steps|].ctxDone || step == CancelCtx ==> Selection.Apply(ss[|steps|], step, opts).ctxDone
  {
  }

  /** The tests' answer in terms of the input. */
  function Placed(ts: seq<Tested>, candidates: seq<nat>): (placed: seq<Tested>)
    requires forall t :: t in ts ==> t.relay < |candidates|
    ensures |placed| == |ts|
    ensures forall i :: 0 <= i < |ts| ==> placed[i] == ts[i].(relay := candidates[ts[i].relay])
  {
    seq(|ts|, i requires 0 <= i < |ts| => assert ts[i] in ts; ts[i].(relay := candidates[ts[i].relay]))
  }

  /** Some candidate passes. */
  ghost predicate SomePasses(candidates: seq<nat>, truth: Truth)
    requires Candidates(candidates, truth)
  {
    exists i :: 0 <= i < |candidates| && truth[candidates[i]].Some?
  }

  /** The answer names different candidates, with what is true of them, by score. */
  ghost predicate Honest(answer: seq<Tested>, candidates: seq<nat>, truth: Truth) {
    && KeysDiffer(answer, (t: Tested) => t.relay)
    && InOrder(answer)
    && forall t :: t in answer ==>
         t.relay in candidates && t.relay < |truth| && truth[t.relay] == Some((t.latency, t.jitter))
  }

  /** The candidate at `w` with what is true of it. */
  function Entry(w: nat, candidates: seq<nat>, truth: Truth): Tested
    requires Candidates(candidates, truth) && w < |candidates| && truth[candidates[w]].Some?
  {
    Tested(candidates[w], truth[candidates[w]].value.0, truth[candidates[w]].value.1)
  }

  /** The answer is the best `n` candidates that pass (all for `n` of 0 or less):
      nobody else is left out while there is room, or with a lower score. */
  ghost predicate BestOf(answer: seq<Tested>, n: int, candidates: seq<nat>, truth: Truth)
    requires Candidates(candidates, truth)
  {
    && (n > 0 ==> |answer| <= n)
    && forall w: nat :: w < |candidates| && truth[candidates[w]].Some? ==>
         || Entry(w, candidates, truth) in answer
         || (|answer| == n && forall a :: a in answer ==> NoWorse(a, Entry(w, candidates, truth)))
  }

  /** What is available is true of its candidate. */
  lemma AvailableTrue(s: State, t: Tested, candidates: seq<nat>, truth: Truth)
    requires Candidates(candidates, truth) && Truthful(s, candidates, truth) && ListOk(s) && t in s.available
    ensures t.relay < |candidates| && truth[candidates[t.relay]] == Some((t.latency, t.jitter))
  {
    assert Allowed(s, t.relay, s.results[t.relay], candidates, truth);
  }

  lemma DrawnFacts(s: State, n: int, r: Result<seq<Tested>>)
    requires Drawn(s, n, r) && r.Success? && ListOk(s)
    ensures KeysDiffer(r.value, (t: Tested) => t.relay)
    ensures forall t :: t in r.value ==> t in s.available
    ensures forall t, a :: t in s.available && t !in r.value && a in r.value ==> NoWorse(a, t)
  {
    var relay := (t: Tested) => t.relay;
    var rest :| Rearranged(s.available, r.value + rest) &&
                forall a, b :: a in r.value && b in rest ==> NoWorse(a, b);
    RearrangedFacts(s.available, r.value + rest);
    assert KeysDiffer(s.available, relay);
    RearrangedDiffer(s.available, r.value + rest, relay);
    assert forall i :: 0 <= i < |r.value| ==> (r.value + rest)[i] == r.value[i];
  }

  lemma PlacedFacts(ts: seq<Tested>, candidates: seq<nat>)
    requires NoRepeats(candidates) && forall t :: t in ts ==> t.relay < |candidates|
    requires KeysDiffer(ts, (t: Tested) => t.relay) && InOrder(ts)
    ensures KeysDiffer(Placed(ts, candidates), (t: Tested) => t.relay)
    ensures InOrder(Placed(ts, candidates))
    ensures forall t :: t in ts ==> t.(relay := candidates[t.relay]) in Placed(ts, candidates)
    ensures forall p :: p in Placed(ts, candidates) ==> exists t :: t in ts && p == t.(relay := candidates[t.relay])
  {
    var placed := Placed(ts, candidates);
    forall i: nat, j: nat | i < j < |placed|
      ensures placed[i].relay != placed[j].relay && NoWorse(placed[i], placed[j])
    {
      assert ts[i] in ts && ts[j] in ts;
      var a, b := ts[i].relay, ts[j].relay;
      assert a != b && candidates[a] != candidates[b];
    }
    forall t | t in ts
      ensures t.(relay := candidates[t.relay]) in placed
    {
      var i :| 0 <= i < |ts| && ts[i] == t;
      assert placed[i] == t.(relay := candidates[t.relay]);
    }
  }

  /** Every answer is honest. */
  lemma AnswerHonest(s: State, n: int, r: Result<seq<Tested>>, candidates: seq<nat>, truth: Truth)
    requires Candidates(candidates, truth) && Truthful(s, candidates, truth) && ListOk(s)
    requires Drawn(s, n, r) && r.Success?
    ensures forall t :: t in r.value ==> t.relay < |candidates|
    ensures Honest(Placed(r.value, candidates), candidates, truth)
  {
    hide Truthful;
    hide ListOk;
    hide Drawn;
    hide Placed;
    DrawnFacts(s, n, r);
    DrawnSorted(s, n, r);
    forall t | t in r.value
      ensures t.relay < |candidates| && truth[candidates[t.relay]] == Some((t.latency, t.jitter))
    {
      AvailableTrue(s, t, candidates, truth);
    }
    PlacedFacts(r.value, candidates);
  }

  lemma DrawnSorted(s: State, n: int, r: Result<seq<Tested>>)
    requires Drawn(s, n, r) && r.Success?
    ensures InOrder(r.value)
  {
  }

  /** Undisturbed tests list exactly the candidates that pass. */
  lemma UndisturbedLists(s: State, candidates: seq<nat>, truth: Truth, w: nat, opts: Options)
    requires Candidates(candidates, truth) && Truthful(s, candidates, truth) && ListOk(s)
    requires StopOk(s, opts) && !s.ctxDone && !s.stopped && w < |candidates| && w in s.results
    ensures truth[candidates[w]].Some? ==>
              Tested(w, truth[candidates[w]].value.0, truth[candidates[w]].value.1) in s.available
  {
    assert Allowed(s, w, s.results[w], candidates, truth);
  }

  lemma DrawnRoom(s: State, n: int, r: Result<seq<Tested>>)
    requires Drawn(s, n, r) && r.Success?
    ensures n > 0 ==> |r.value| <= n
    ensures |r.value| != n ==> forall t :: t in s.available ==> t in r.value
  {
    var rest :| Rearranged(s.available, r.value + rest) &&
                forall a, b :: a in r.value && b in rest ==> NoWorse(a, b);
    RearrangedFacts(s.available, r.value + rest);
    if |r.value| != n {
      assert rest == [] && r.value + rest == r.value;
    }
  }

  /** With neither a cancellation nor an early stop the tests succeed exactly when
      some candidate passes, and answer with the best of them. */
  lemma UndisturbedAnswer(s: State, opts: Options, n: int, r: Result<seq<Tested>>, candidates: seq<nat>, truth: Truth)
    requires Candidates(candidates, truth) && Truthful(s, candidates, truth) && ListOk(s) && StopOk(s, opts)
    requires Drawn(s, n, r) && !s.ctxDone && !s.stopped
    requires forall w: nat :: w < |candidates| ==> w in s.results
    ensures r.Success? <==> SomePasses(candidates, truth)
    ensures r.Success? ==>
              && (forall t :: t in r.value ==> t.relay < |candidates|)
              && BestOf(Placed(r.value, candidates), n, candidates, truth)
  {
    hide Truthful;
    hide ListOk;
    hide StopOk;
    if s.available == [] {
      forall w: nat | w < |candidates|
        ensures truth[candidates[w]].None?
      {
        UndisturbedLists(s, candidates, truth, w, opts);
      }
    } else {
      AvailableTrue(s, s.available[0], candidates, truth);
      AnswerHonest(s, n, r, candidates, truth);
      UndisturbedBest(s, opts, n, r, candidates, truth);
    }
  }

  lemma UndisturbedBest(s: State, opts: Options, n: int, r: Result<seq<Tested>>, candidates: seq<nat>, truth: Truth)
    requires Candidates(candidates, truth) && Truthful(s, candidates, truth) && ListOk(s) && StopOk(s, opts)
    requires Drawn(s, n, r) && r.Success? && !s.ctxDone && !s.stopped
    requires forall w: nat :: w < |candidates| ==> w in s.results
    requires forall t :: t in r.value ==> t.relay < |candidates|
    ensures BestOf(Placed(r.value, candidates), n, candidates, truth)
  {
    hide Truthful;
    hide ListOk;
    hide StopOk;
    hide Drawn;
    hide Placed;
    DrawnFacts(s, n, r);
    DrawnRoom(s, n, r);
    DrawnSorted(s, n, r);
    PlacedFacts(r.value, candidates);
    var placed := Placed(r.value, candidates);
    forall w: nat | w < |candidates| && truth[candidates[w]].Some?
      ensures || Entry(w, candidates, truth) in placed
              || (|placed| == n && forall a :: a in placed ==> NoWorse(a, Entry(w, candidates, truth)))
    {
      UndisturbedLists(s, candidates, truth, w, opts);
      var t := Tested(w, truth[candidates[w]].value.0, truth[candidates[w]].value.1);
      assert t.(relay := candidates[t.relay]) == Entry(w, candidates, truth);
      if t !in r.value {
        assert forall a :: NoWorse(a, t) ==> NoWorse(a, Entry(w, candidates, truth));
      }
    }
  }

  function All(relays: nat): seq<nat> {
    seq(relays, (i: nat) => i)
  }

  /** The whole call. `kept` is what the pre-filter returned; only when that is
      nothing are the other relays tested. So an undisturbed call succeeds exactly
      if a candidate passes: when relays were kept and all of them fail, it fails
      even if another relay would pass. */
  method TestAllAndSort(net: Network, truth: Truth, filterTimeout: int, filterConcurrent: int, topN: int,
                        opts: Options, n: int)
    returns (r: Result<seq<Tested>>, kept: seq<nat>, candidates: seq<nat>, s: State)
    requires net.log == [] && net.running == {} && net.peak == 0
    modifies net
    ensures filterTimeout <= 0 || truth == [] ==> kept == []
    ensures filterTimeout > 0 && truth != [] ==> Fastest(Successes(net.log), Keep(|truth|, topN), kept)
    ensures filterTimeout > 0 && truth != [] ==> |kept| == KeptOf(|Successes(net.log)|, topN)
    ensures candidates == if kept == [] then All(|truth|) else kept
    ensures kept == [] ==> |candidates| == |truth| && forall x :: 0 <= x < |truth| ==> x in candidates
    ensures Candidates(candidates, truth)
    ensures truth == [] ==> r.Failure?
    ensures r.Success? ==> Honest(r.value, candidates, truth)
    ensures truth != [] && s.stopped ==> r.Success?
    ensures truth != [] && net.cancelled && !s.stopped ==> r.Failure?
    ensures !s.ctxDone && !s.stopped ==>
              && (r.Success? <==> SomePasses(candidates, truth))
              && (r.Success? ==> BestOf(r.value, n, candidates, truth))
  {
    hide Truthful;
    hide Fastest;
    hide Honest;
    hide BestOf;
    hide Drawn;
    hide ListOk;
    hide StopOk;
    s, kept, candidates := Init(0), [], [];
    if |truth| == 0 {
      return Failure("no relays to test"), kept, candidates, s;
    }
    candidates := All(|truth|);
    if filterTimeout > 0 {
      ghost var rounds;
      kept, rounds := TcpPreFilter(net, |truth|, filterTimeout, filterConcurrent, topN);
      KeptInput(net.log, filterTimeout, rounds, topN, kept, |truth|);
      if |kept| > 0 {
        candidates := kept;
      }
    }
    AllCandidates(truth);
    ghost var ss, steps;
    s, ss, steps := RunTests(candidates, truth, opts, net.cancelled);
    var drawn := Conclude(s, n);
    Finished(s, ss, steps, opts, candidates, truth);
    DrawnSuccess(s, n, drawn);
    if !s.ctxDone && !s.stopped {
      UndisturbedAnswer(s, opts, n, drawn, candidates, truth);
    }
    match drawn
    case Failure(e) => r := Failure(e);
    case Success(ts) =>
      AnswerHonest(s, n, drawn, candidates, truth);
      r := Success(Placed(ts, candidates));
  }

  lemma AllCandidates(truth: Truth)
    ensures Candidates(All(|truth|), truth)
    ensures |All(|truth|)| == |truth| && forall x :: 0 <= x < |truth| ==> x in All(|truth|)
  {
    forall x | 0 <= x < |truth|
      ensures x in All(|truth|)
    {
      assert All(|truth|)[x] == x;
    }
  }

  lemma DrawnSuccess(s: State, n: int, r: Result<seq<Tested>>)
    requires Drawn(s, n, r)
    ensures r.Success? <==> (!s.ctxDone || s.stopped) && s.available != []
  {
  }

  lemma Finished(s: State, ss: seq<State>, steps: seq<Step>, opts: Options, candidates: seq<nat>, truth: Truth)
    requires Candidates(candidates, truth) && Truthful(s, candidates, truth)
    requires IsRun(ss, steps, |candidates|, opts) && s == ss[|steps|]
    requires forall w: nat :: w < |s.workers| ==> s.workers[w] == Gone
    ensures ListOk(s) && StopOk(s, opts) && (s.stopped ==> s.available != [])
    ensures !s.ctxDone && !s.stopped ==> forall w: nat :: w < |candidates| ==> w in s.results
  {
    hide Truthful;
    TruthfulSize(s, candidates, truth);
    RunInv(ss, steps, |candidates|, opts, |steps|);
    if !s.ctxDone && !s.stopped {
      forall w: nat | w < |candidates|
        ensures w in s.results
      {
        NothingSkipped(ss, steps, |candidates|, opts, w);
      }
    }
  }

  lemma KeptInput(log: seq<Probe>, timeout: int, rounds: nat, topN: int, kept: seq<nat>, relays: nat)
    requires Disciplined(log, timeout, rounds, Keep(relays, topN)) && Fastest(Successes(log), Keep(relays, topN), kept)
    requires forall p :: p in log ==> p.index < relays
    ensures NoRepeats(kept) && forall i :: 0 <= i < |kept| ==> kept[i] < relays
  {
    hide Fastest;
    KeptDistinct(log, Keep(relays, topN), kept);
    assert forall i :: 0 <= i < |kept| ==> kept[i] in kept;
  }
}
