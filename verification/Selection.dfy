/** Concurrent latency testing of relays (TestAllAndSort in
    pkg/relay/discovery.go, after the pre-filter). */
module Selection {
  import opened Text
  import opened Counting
  import opened Sorting

  /** A relay (by its position) with what its test measured. */
  datatype Tested = Tested(relay: nat, latency: int, jitter: int)
  {
    function Score(): int {
      latency + jitter * 2
    }
  }

  /** `a` comes no later than `b`: every unit of jitter counts like two of latency. */
  predicate NoWorse(a: Tested, b: Tested) {
    a.latency - b.latency <= 2 * (b.jitter - a.jitter)
  }

  predicate InOrder(ts: seq<Tested>) {
    forall i, j :: 0 <= i < j < |ts| ==> NoWorse(ts[i], ts[j])
  }

  const DEFAULT_MAX_CONCURRENT: nat := 200

  /** Options: an early-stop latency of 0 or less switches early stopping off. */
  datatype Options = Options(maxConcurrent: int, earlyLatency: int, minTested: int)
  {
    function Slots(): nat {
      if maxConcurrent <= 0 then DEFAULT_MAX_CONCURRENT else maxConcurrent
    }
  }

  datatype Phase =
    | Starting       // first load of the stop flag
    | WaitSlot       // select on the semaphore and the test context
    | CheckStopped   // slot held, second load of the flag
    | Testing
    | Reckoning(result: Option<(int, int)>)              // about to increment the counter
    | Locking(result: Option<(int, int)>, count: nat)    // about to enter the critical section
    | FreeSlot
    | Leaving
    | Gone

  datatype State = State(
    workers: seq<Phase>, slots: int, tested: nat,
    available: seq<Tested>, best: Option<Tested>, bestLatency: int, reports: seq<int>,
    stopped: bool, earlyStops: nat, testCancelled: bool, ctxDone: bool,
    results: map<nat, Option<(int, int)>>)   // history: what each recorded test measured
  {
    predicate Is(w: nat, phase: Phase) {
      w < |workers| && workers[w] == phase
    }

    function Move(w: nat, phase: Phase): State
      requires w < |workers|
    {
      this.(workers := workers[w := phase])
    }
  }

  function Init(relays: nat): State {
    State(seq(relays, _ => Starting), 0, 0, [], None, 0, [], false, 0, false, false, map[])
  }

  datatype Step =
    | SkipStart(w: nat) | GoOn(w: nat) | TakeSlot(w: nat) | GiveUp(w: nat)
    | SkipSlot(w: nat) | Begin(w: nat) | Finish(w: nat, outcome: Option<(int, int)>)
    | CountOne(w: nat) | Record(w: nat, longEnough: bool) | Free(w: nat) | Leave(w: nat)
    | CancelCtx

  predicate Enabled(s: State, step: Step, opts: Options) {
    match step
    case SkipStart(w) => s.Is(w, Starting) && s.stopped
    case GoOn(w) => s.Is(w, Starting) && !s.stopped
    case TakeSlot(w) => s.Is(w, WaitSlot) && s.slots < opts.Slots()
    case GiveUp(w) => s.Is(w, WaitSlot) && (s.testCancelled || s.ctxDone)
    case SkipSlot(w) => s.Is(w, CheckStopped) && s.stopped
    case Begin(w) => s.Is(w, CheckStopped) && !s.stopped
    case Finish(w, _) => s.Is(w, Testing)
    case CountOne(w) => w < |s.workers| && s.workers[w].Reckoning?
    case Record(w, _) => w < |s.workers| && s.workers[w].Locking?
    case Free(w) => s.Is(w, FreeSlot)
    case Leave(w) => s.Is(w, Leaving)
    case CancelCtx => !s.ctxDone
  }

  /** The first half of the critical section: note a successful test. */
  function Noted(s: State, w: nat, result: Option<(int, int)>): State {
    match result
    case None => s
    case Some((latency, jitter)) =>
      var r := Tested(w, latency, jitter);
      var s' := s.(available := s.available + [r]);
      if s.best.None? || latency < s.bestLatency
      then s'.(best := Some(r), bestLatency := latency, reports := s.reports + [latency])
      else s'
  }

  predicate StopsEarly(s: State, count: nat, longEnough: bool, opts: Options) {
    opts.earlyLatency > 0 && count >= opts.minTested && longEnough &&
    s.best.Some? && s.bestLatency <= opts.earlyLatency && !s.stopped
  }

  /** The second half: the one-shot early stop. */
  function Stopped(s: State, count: nat, longEnough: bool, opts: Options): State {
    if StopsEarly(s, count, longEnough, opts)
    then s.(stopped := true, earlyStops := s.earlyStops + 1, testCancelled := true)
    else s
  }

  function Apply(s: State, step: Step, opts: Options): State
    requires Enabled(s, step, opts)
  {
    match step
    case SkipStart(w) => s.Move(w, Leaving)
    case GoOn(w) => s.Move(w, WaitSlot)
    case TakeSlot(w) => s.Move(w, CheckStopped).(slots := s.slots + 1)
    case GiveUp(w) => s.Move(w, Leaving)
    case SkipSlot(w) => s.Move(w, FreeSlot)
    case Begin(w) => s.Move(w, Testing)
    case Finish(w, outcome) => s.Move(w, Reckoning(outcome))
    case CountOne(w) => s.Move(w, Locking(s.workers[w].result, s.tested + 1)).(tested := s.tested + 1)
    case Record(w, longEnough) =>
      var x := s.workers[w];
      var s' := Noted(s.Move(w, FreeSlot), w, x.result).(results := s.results[w := x.result]);
      Stopped(s', x.count, longEnough, opts)
    case Free(w) => s.Move(w, Leaving).(slots := s.slots - 1)
    case Leave(w) => s.Move(w, Gone)
    case CancelCtx => s.(ctxDone := true)
  }

  ghost predicate IsRun(ss: seq<State>, steps: seq<Step>, relays: nat, opts: Options) {
    |ss| == |steps| + 1 && ss[0] == Init(relays) &&
    forall i :: 0 <= i < |steps| ==> Enabled(ss[i], steps[i], opts) && ss[i + 1] == Apply(ss[i], steps[i], opts)
  }

  predicate Holds(p: Phase) {
    p.CheckStopped? || p.Testing? || p.Reckoning? || p.Locking? || p.FreeSlot?
  }

  predicate IsTesting(p: Phase) {
    p.Testing?
  }

  predicate Recorded(p: Phase) {
    p.FreeSlot? || p.Leaving? || p.Gone?
  }

  /** The running minimum and its reports. */
  predicate BestOk(s: State) {
    && (s.best.None? <==> s.available == [])
    && (s.best.None? <==> s.reports == [])
    && (s.best.Some? ==> s.best.value in s.available && s.best.value.latency == s.bestLatency)
    && (forall a :: a in s.available ==> s.bestLatency <= a.latency)
    && (forall i, j :: 0 <= i < j < |s.reports| ==> s.reports[i] > s.reports[j])
    && (s.reports != [] ==> s.reports[|s.reports| - 1] == s.bestLatency)
  }

  /** Early stopping: at most once, after enough tests, with a good enough best. */
  predicate StopOk(s: State, opts: Options) {
    && s.earlyStops == One(s.stopped)
    && (s.testCancelled <==> s.stopped)
    && (s.stopped ==> s.available != [] && s.tested >= opts.minTested && s.bestLatency <= opts.earlyLatency)
  }

  /** What is available is exactly what was recorded as a success, each relay once. */
  predicate ListOk(s: State) {
    && (forall i, j :: 0 <= i < j < |s.available| ==> s.available[i].relay != s.available[j].relay)
    && (forall a :: a in s.available ==> a.relay in s.results && s.results[a.relay] == Some((a.latency, a.jitter)))
    && (forall w :: w in s.results && s.results[w].Some? ==>
          Tested(w, s.results[w].value.0, s.results[w].value.1) in s.available)
  }

  predicate WorkerOk(s: State, w: nat)
    requires w < |s.workers|
  {
    var p := s.workers[w];
    && (p.Locking? ==> p.count <= s.tested)
    && (w in s.results ==> Recorded(p))
    && (Recorded(p) && w !in s.results ==> s.stopped || s.ctxDone)
  }

  predicate SlotsOk(s: State, opts: Options) {
    s.slots == Count(s.workers, Holds) <= opts.Slots()
  }

  predicate IsLocking(p: Phase) {
    p.Locking?
  }

  /** The counter counts the tests that have ended: those recorded, and those about to
      be. */
  predicate TestedOk(s: State) {
    s.tested == |s.results| + Count(s.workers, IsLocking)
  }

  predicate Inv(s: State, opts: Options) {
    && TestedOk(s)
    && BestOk(s) && StopOk(s, opts) && ListOk(s) && SlotsOk(s, opts)
    && forall w: nat :: w < |s.workers| ==> WorkerOk(s, w)
  }

  lemma NotedOk(s: State, w: nat, result: Option<(int, int)>)
    requires BestOk(s)
    ensures BestOk(Noted(s, w, result))
  {
  }

  lemma StepSlots(s: State, step: Step, opts: Options)
    requires SlotsOk(s, opts) && Enabled(s, step, opts)
    ensures SlotsOk(Apply(s, step, opts), opts)
  {
    hide Count;
    if !step.CancelCtx? {
      CountUpdate(s.workers, step.w, Apply(s, step, opts).workers[step.w], Holds);
    }
  }

  lemma RecordList(s: State, w: nat, result: Option<(int, int)>)
    requires ListOk(s) && w !in s.results
    ensures ListOk(Noted(s, w, result).(results := s.results[w := result]))
  {
    var s' := Noted(s, w, result).(results := s.results[w := result]);
    if result.Some? {
      var r := Tested(w, result.value.0, result.value.1);
      assert s'.available == s.available + [r];
      assert forall a :: a in s'.available <==> a in s.available || a == r;
      assert forall i :: 0 <= i < |s.available| ==> s.available[i] in s.available;
    }
  }

  lemma StepWorkers(s: State, step: Step, w: nat, opts: Options)
    requires w < |s.workers| && WorkerOk(s, w) && StopOk(s, opts) && Enabled(s, step, opts)
    ensures WorkerOk(Apply(s, step, opts), w)
  {
  }

  lemma StepTested(s: State, step: Step, opts: Options)
    requires TestedOk(s) && Enabled(s, step, opts)
    requires !step.CancelCtx? ==> WorkerOk(s, step.w)
    ensures TestedOk(Apply(s, step, opts))
  {
    hide Count;
    if !step.CancelCtx? {
      CountUpdate(s.workers, step.w, Apply(s, step, opts).workers[step.w], IsLocking);
    }
    if step.Record? {
      OneMore(s.results, step.w, s.workers[step.w].result);
    }
  }

  lemma OneMore<T>(m: map<nat, T>, k: nat, v: T)
    requires k !in m
    ensures |m[k := v]| == |m| + 1
  {
    assert m[k := v].Keys == m.Keys + {k};
    assert |m[k := v].Keys| == |m.Keys| + 1;
  }

  lemma StepStop(s: State, step: Step, opts: Options)
    requires StopOk(s, opts) && BestOk(s) && Enabled(s, step, opts)
    requires !step.CancelCtx? ==> WorkerOk(s, step.w)
    ensures StopOk(Apply(s, step, opts), opts)
  {
    if step.Record? {
      NotedOk(s.Move(step.w, FreeSlot), step.w, s.workers[step.w].result);
    }
  }

  lemma StepInv(s: State, step: Step, opts: Options)
    requires Inv(s, opts) && Enabled(s, step, opts)
    ensures Inv(Apply(s, step, opts), opts) && |Apply(s, step, opts).workers| == |s.workers|
  {
    hide BestOk;
    hide StopOk;
    hide SlotsOk;
    hide TestedOk;
    StepTested(s, step, opts);
    StepSlots(s, step, opts);
    StepStop(s, step, opts);
    forall w: nat | w < |s.workers|
      ensures WorkerOk(Apply(s, step, opts), w)
    {
      StepWorkers(s, step, w, opts);
    }
    if step.Record? {
      var s', result := s.Move(step.w, FreeSlot), s.workers[step.w].result;
      SameBest(s, s');
      SameList(s, s');
      NotedOk(s', step.w, result);
      RecordList(s', step.w, result);
      SameBest(Noted(s', step.w, result), Apply(s, step, opts));
      SameList(Noted(s', step.w, result).(results := s.results[step.w := result]), Apply(s, step, opts));
    } else {
      SameBest(s, Apply(s, step, opts));
      SameList(s, Apply(s, step, opts));
    }
  }

  lemma SameBest(s: State, t: State)
    requires t.available == s.available && t.best == s.best && t.bestLatency == s.bestLatency && t.reports == s.reports
    ensures BestOk(s) == BestOk(t)
  {
  }

  lemma SameList(s: State, t: State)
    requires t.available == s.available && t.results == s.results
    ensures ListOk(s) == ListOk(t)
  {
  }

  lemma {:induction false} RunInv(ss: seq<State>, steps: seq<Step>, relays: nat, opts: Options, i: nat)
    requires IsRun(ss, steps, relays, opts) && i < |ss|
    ensures Inv(ss[i], opts) && |ss[i].workers| == relays
  {
    if i == 0 {
      CountZero(Init(relays).workers, Holds);
      CountZero(Init(relays).workers, IsLocking);
    } else {
      hide Inv;
      hide Apply;
      hide Enabled;
      RunInv(ss, steps, relays, opts, i - 1);
      StepInv(ss[i - 1], steps[i - 1], opts);
    }
  }

  /** In every state of every run: the running best is the minimum over what is
      available, the reports of a best so far strictly decrease, at most
      `Slots()` tests run, what is available is exactly what was measured,
      each relay once, and there is at most one early stop, only after enough
      tests and with a success within the limit. */
  lemma RunSafe(ss: seq<State>, steps: seq<Step>, relays: nat, opts: Options, i: nat)
    requires IsRun(ss, steps, relays, opts) && i < |ss|
    ensures var s := ss[i];
            && BestOk(s) && ListOk(s) && StopOk(s, opts) && TestedOk(s)
            && Count(s.workers, IsTesting) <= (if opts.maxConcurrent <= 0 then 200 else opts.maxConcurrent)
            && s.earlyStops <= 1
  {
    RunInv(ss, steps, relays, opts, i);
    CountMonotone(ss[i].workers, IsTesting, Holds);
  }

  /** Once every worker is gone, with neither a cancellation nor an early stop,
      every relay has been tested and none that answered is missing. */
  lemma NothingSkipped(ss: seq<State>, steps: seq<Step>, relays: nat, opts: Options, w: nat)
    requires IsRun(ss, steps, relays, opts) && w < relays
    requires var s := ss[|steps|]; !s.ctxDone && !s.stopped && s.Is(w, Gone)
    ensures var s := ss[|steps|];
            && w in s.results
            && (s.results[w].Some? ==> exists a :: a in s.available && a.relay == w)
  {
    RunInv(ss, steps, relays, opts, |steps|);
    assert WorkerOk(ss[|steps|], w);
  }

  /** Early stopping is on, enough tests have been counted, enough time has passed, and
      some relay that is available is within the limit. */
  ghost predicate StopDue(s: State, count: nat, longEnough: bool, opts: Options) {
    opts.earlyLatency > 0 && count >= opts.minTested && longEnough &&
    exists a :: a in s.available && a.latency <= opts.earlyLatency
  }

  /** When a result is recorded the early stop fires exactly if it is due with it, and
      cancels the tests; nothing else fires it. */
  lemma StopsWhen(ss: seq<State>, steps: seq<Step>, relays: nat, opts: Options, i: nat)
    requires IsRun(ss, steps, relays, opts) && i < |steps|
    ensures ss[i + 1].stopped ==> ss[i + 1].testCancelled
    ensures match steps[i]
            case Record(w, longEnough) =>
              && w < |ss[i].workers| && ss[i].workers[w].Locking?
              && (ss[i + 1].stopped <==> ss[i].stopped || StopDue(ss[i + 1], ss[i].workers[w].count, longEnough, opts))
            case _ => ss[i + 1].stopped == ss[i].stopped
  {
    RunInv(ss, steps, relays, opts, i);
    RunInv(ss, steps, relays, opts, i + 1);
    assert Enabled(ss[i], steps[i], opts) && ss[i + 1] == Apply(ss[i], steps[i], opts);
    if steps[i].Record? {
      RecordStops(ss[i], steps[i], opts);
    }
  }

  lemma RecordStops(s: State, step: Step, opts: Options)
    requires Enabled(s, step, opts) && step.Record?
    requires BestOk(Apply(s, step, opts))
    ensures Apply(s, step, opts).stopped <==>
            s.stopped || StopDue(Apply(s, step, opts), s.workers[step.w].count, step.longEnough, opts)
  {
  }

  /** Once it has fired, no test is begun. */
  lemma {:induction false} NoTestAfterStop(ss: seq<State>, steps: seq<Step>, relays: nat, opts: Options, i: nat, j: nat)
    requires IsRun(ss, steps, relays, opts) && i <= j < |steps| && ss[i].stopped
    ensures ss[j].stopped && !steps[j].Begin?
  {
    assert Enabled(ss[j], steps[j], opts);
    if i < j {
      hide Apply;
      hide StopDue;
      NoTestAfterStop(ss, steps, relays, opts, i, j - 1);
      StopsWhen(ss, steps, relays, opts, j - 1);
    }
  }

  /** And no worker needs a slot any more, nor once the context is done: one that waits
      can leave without. */
  lemma WaitersCanLeave(ss: seq<State>, steps: seq<Step>, relays: nat, opts: Options, i: nat, w: nat)
    requires IsRun(ss, steps, relays, opts) && i < |ss| && ss[i].Is(w, WaitSlot)
    requires ss[i].stopped || ss[i].ctxDone
    ensures Enabled(ss[i], GiveUp(w), opts) && Apply(ss[i], GiveUp(w), opts).Is(w, Leaving)
    ensures Apply(ss[i], GiveUp(w), opts).slots == ss[i].slots
  {
    RunInv(ss, steps, relays, opts, i);
  }

  // Testing ends

  function Rank(p: Phase): nat {
    match p
    case Starting => 8
    case WaitSlot => 7
    case CheckStopped => 6
    case Testing => 5
    case Reckoning(_) => 4
    case Locking(_, _) => 3
    case FreeSlot => 2
    case Leaving => 1
    case Gone => 0
  }

  /** Goes down with every step. */
  function Measure(s: State): nat {
    Total(s.workers, Rank) + One(!s.ctxDone)
  }

  lemma StepDecreases(s: State, step: Step, opts: Options)
    requires Enabled(s, step, opts)
    ensures Measure(Apply(s, step, opts)) < Measure(s)
  {
    hide Total;
    if !step.CancelCtx? {
      PhaseFalls(s, step, opts);
      TotalUpdate(s.workers, step.w, Apply(s, step, opts).workers[step.w], Rank);
    }
  }

  lemma PhaseFalls(s: State, step: Step, opts: Options)
    requires Enabled(s, step, opts) && !step.CancelCtx?
    ensures var s', w := Apply(s, step, opts), step.w;
            && w < |s.workers| && |s'.workers| == |s.workers|
            && s'.workers == s.workers[w := s'.workers[w]]
            && Rank(s'.workers[w]) < Rank(s.workers[w])
            && s'.ctxDone == s.ctxDone
  {
  }

  /** No run has more than eight steps per relay and one more. */
  lemma {:induction false} RunsAreFinite(ss: seq<State>, steps: seq<Step>, relays: nat, opts: Options, i: nat)
    requires IsRun(ss, steps, relays, opts) && i < |ss|
    ensures i + Measure(ss[i]) <= 8 * relays + 1
  {
    hide Apply;
    hide Enabled;
    if i == 0 {
      TotalAtMost(Init(relays).workers, Rank, 8);
    } else {
      RunsAreFinite(ss, steps, relays, opts, i - 1);
      StepDecreases(ss[i - 1], steps[i - 1], opts);
    }
  }

  /** What a worker that has something to do can always do. */
  function Ready(s: State, w: nat): Step
    requires w < |s.workers|
  {
    match s.workers[w]
    case Starting => if s.stopped then SkipStart(w) else GoOn(w)
    case WaitSlot => TakeSlot(w)
    case CheckStopped => if s.stopped then SkipSlot(w) else Begin(w)
    case Testing => Finish(w, None)
    case Reckoning(_) => CountOne(w)
    case Locking(_, _) => Record(w, false)
    case FreeSlot => Free(w)
    case _ => Leave(w)
  }

  /** Until every worker is gone, something other than an outside cancellation can
      happen; so every run that goes on as long as it can comes to the end of the
      wait group. */
  lemma NeverStuck(ss: seq<State>, steps: seq<Step>, relays: nat, opts: Options, i: nat, w: nat) returns (step: Step)
    requires IsRun(ss, steps, relays, opts) && i < |ss|
    requires w < |ss[i].workers| && ss[i].workers[w] != Gone
    ensures Enabled(ss[i], step, opts) && step != CancelCtx
  {
    RunInv(ss, steps, relays, opts, i);
    var v := SomeMovable(ss[i], opts, w);
    step := Ready(ss[i], v);
  }

  /** The worker has something to do and is not kept waiting. */
  predicate Movable(s: State, w: nat, opts: Options) {
    w < |s.workers| && s.workers[w] != Gone && (s.workers[w] == WaitSlot ==> s.slots < opts.Slots())
  }

  lemma MovableMoves(s: State, w: nat, opts: Options)
    requires Movable(s, w, opts)
    ensures Enabled(s, Ready(s, w), opts)
  {
  }

  lemma SomeMovable(s: State, opts: Options, w: nat) returns (v: nat)
    requires SlotsOk(s, opts) && w < |s.workers| && s.workers[w] != Gone
    ensures Movable(s, v, opts) && Enabled(s, Ready(s, v), opts)
  {
    v := w;
    if s.workers[w] == WaitSlot && s.slots == opts.Slots() {
      CountZero(s.workers, Holds);
      v :| v < |s.workers| && Holds(s.workers[v]);
    }
  }

  /** The answer drawn from the state after the wait group: an error when cancelled
      without an early stop or when nothing is available, else the `n` lowest
      scores in order. */
  ghost predicate Drawn(s: State, n: int, r: Result<seq<Tested>>) {
    && (r.Failure? <==> (s.ctxDone && !s.stopped) || s.available == [])
    && (r.Success? ==>
          && |r.value| == (if n <= 0 || n > |s.available| then |s.available| else n)
          && InOrder(r.value)
          && exists rest :: Rearranged(s.available, r.value + rest) &&
               forall a, b :: a in r.value && b in rest ==> NoWorse(a, b))
  }

  method Conclude(s: State, n: int) returns (r: Result<seq<Tested>>)
    ensures Drawn(s, n, r)
  {
    if s.ctxDone && !s.stopped {
      return Failure("context done");
    }
    if |s.available| == 0 {
      return Failure("no available relays");
    }
    var score := (t: Tested) => t.Score();
    var sorted := SortBy(s.available, score);
    RearrangedFacts(s.available, sorted);
    var k := if n <= 0 || n > |s.available| then |s.available| else n;
    BestFirst(s.available, sorted, score, k);
    r := Success(sorted[..k]);
    forall a, b | a in r.value && b in sorted[k..]
      ensures NoWorse(a, b)
    {
      assert score(a) <= score(b);
    }
    forall i, j | 0 <= i < j < |r.value|
      ensures NoWorse(r.value[i], r.value[j])
    {
      assert score(sorted[i]) <= score(sorted[j]);
    }
    assert Rearranged(s.available, r.value + sorted[k..]);
  }

  /** A run in which the early stop fired ends in success. */
  lemma EarlyStopSucceeds(ss: seq<State>, steps: seq<Step>, relays: nat, opts: Options)
    requires IsRun(ss, steps, relays, opts) && ss[|steps|].earlyStops > 0
    ensures !((ss[|steps|].ctxDone && !ss[|steps|].stopped) || ss[|steps|].available == [])
  {
    RunInv(ss, steps, relays, opts, |steps|);
  }
}
