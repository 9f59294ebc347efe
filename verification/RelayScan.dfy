/** The parallel relay scan (scanAndConnect in client.go): any number of
    workers, one atomic flag, a one-slot channel, a 50-slot semaphore, a wait
    group and a closer, in every interleaving. */
module RelayScan {
  import opened Text
  import opened Counting

  const CONCURRENCY: nat := 50

  /** The next thing a worker does. */
  datatype Phase =
    | WaitSlot    // select on the semaphore and the scan context
    | CheckFound  // slot held, loads the flag
    | Probing     // in tryRelayAndConnect
    | Racing      // connected, compare-and-swap on the flag
    | Sending     // won, select on the channel
    | Cancelling  // sent, cancels the scan
    | Discarding  // lost, closes its connection
    | Defaulting  // won but took the default branch, closes its connection
    | FreeSlot    // deferred receive from the semaphore
    | Leaving     // deferred wg.Done
    | Gone

  datatype Probe = Unprobed | ProbeFailed | Connected

  datatype Worker = Worker(phase: Phase, probe: Probe, open: bool)

  datatype Main = Deciding | Committed | Selecting | Returned

  datatype Outcome = Pending | Found(worker: nat) | NotFound | Cancelled

  datatype State = State(
    relays: nat, main: Main, workers: seq<Worker>, wg: int, slots: int,
    winner: Option<nat>, channel: Option<nat>, channelClosed: bool,
    scanCancelled: bool, ctxDone: bool, outcome: Outcome, panicked: bool)
  {
    /** The atomic flag; who set it is recorded beside it. */
    predicate FoundFlag() {
      winner.Some?
    }

    predicate Is(w: nat, phase: Phase) {
      w < |workers| && workers[w].phase == phase
    }

    function Move(w: nat, phase: Phase): State
      requires w < |workers|
    {
      this.(workers := workers[w := workers[w].(phase := phase)])
    }

    function Probed(w: nat, phase: Phase, probe: Probe): State
      requires w < |workers|
    {
      this.(workers := workers[w := Worker(phase, probe, probe == Connected)])
    }
  }

  function Init(relays: nat): State {
    State(relays, Deciding, [], 0, 0, None, None, false, false, false, Pending, false)
  }

  datatype Step =
    | Commit | Spawn | EndLoop
    | TakeSlot(w: nat) | GiveUp(w: nat) | SeeFound(w: nat) | StartProbe(w: nat)
    | ProbeFails(w: nat) | ProbeConnects(w: nat) | Win(w: nat) | Lose(w: nat)
    | Send(w: nat) | Default(w: nat) | CancelScan(w: nat) | CloseConn(w: nat)
    | ReleaseSlot(w: nat) | Leave(w: nat)
    | CloseChannel | Receive | ReceiveClosed | SeeCancelled
    | CancelCtx

  predicate Enabled(s: State, step: Step) {
    match step
    case Commit => s.main == Deciding && |s.workers| < s.relays && !s.FoundFlag()
    case Spawn => s.main == Committed
    case EndLoop => s.main == Deciding && (|s.workers| >= s.relays || s.FoundFlag())
    case TakeSlot(w) => s.Is(w, WaitSlot) && s.slots < CONCURRENCY
    case GiveUp(w) => s.Is(w, WaitSlot) && (s.scanCancelled || s.ctxDone)
    case SeeFound(w) => s.Is(w, CheckFound) && s.FoundFlag()
    case StartProbe(w) => s.Is(w, CheckFound) && !s.FoundFlag()
    case ProbeFails(w) => s.Is(w, Probing)
    case ProbeConnects(w) => s.Is(w, Probing)
    case Win(w) => s.Is(w, Racing) && !s.FoundFlag()
    case Lose(w) => s.Is(w, Racing) && s.FoundFlag()
    case Send(w) => s.Is(w, Sending) && (s.channelClosed || s.channel.None?)
    case Default(w) => s.Is(w, Sending) && !s.channelClosed && s.channel.Some?
    case CancelScan(w) => s.Is(w, Cancelling)
    case CloseConn(w) => s.Is(w, Discarding) || s.Is(w, Defaulting)
    case ReleaseSlot(w) => s.Is(w, FreeSlot)
    case Leave(w) => s.Is(w, Leaving)
    case CloseChannel => (s.main == Selecting || s.main == Returned) && s.wg == 0 && !s.channelClosed
    case Receive => s.main == Selecting && s.channel.Some?
    case ReceiveClosed => s.main == Selecting && s.channel.None? && s.channelClosed
    case SeeCancelled => s.main == Selecting && s.ctxDone
    case CancelCtx => !s.ctxDone
  }

  /** Returning runs the deferred cancellation of the scan. */
  function Return(s: State, outcome: Outcome): State {
    s.(main := Returned, outcome := outcome, scanCancelled := true)
  }

  function Apply(s: State, step: Step): State
    requires Enabled(s, step)
  {
    match step
    case Commit => s.(main := Committed, wg := s.wg + 1)
    case Spawn => s.(main := Deciding, workers := s.workers + [Worker(WaitSlot, Unprobed, false)])
    case EndLoop => s.(main := Selecting)
    case TakeSlot(w) => s.Move(w, CheckFound).(slots := s.slots + 1)
    case GiveUp(w) => s.Move(w, Leaving)
    case SeeFound(w) => s.Move(w, FreeSlot)
    case StartProbe(w) => s.Move(w, Probing)
    case ProbeFails(w) => s.Probed(w, FreeSlot, ProbeFailed)
    case ProbeConnects(w) => s.Probed(w, Racing, Connected)
    case Win(w) => s.Move(w, Sending).(winner := Some(w))
    case Lose(w) => s.Move(w, Discarding)
    case Send(w) => if s.channelClosed then s.(panicked := true) else s.Move(w, Cancelling).(channel := Some(w))
    case Default(w) => s.Move(w, Defaulting)
    case CancelScan(w) => s.Move(w, FreeSlot).(scanCancelled := true)
    case CloseConn(w) => s.(workers := s.workers[w := Worker(FreeSlot, s.workers[w].probe, false)])
    case ReleaseSlot(w) => s.Move(w, Leaving).(slots := s.slots - 1)
    case Leave(w) => s.Move(w, Gone).(wg := s.wg - 1)
    case CloseChannel => s.(channelClosed := true)
    case Receive => Return(s.(channel := None), Found(s.channel.value))
    case ReceiveClosed => Return(s, NotFound)
    case SeeCancelled => Return(s, Cancelled)
    case CancelCtx => s.(ctxDone := true)
  }

  ghost predicate IsRun(ss: seq<State>, steps: seq<Step>, relays: nat) {
    |ss| == |steps| + 1 && ss[0] == Init(relays) &&
    forall i :: 0 <= i < |steps| ==> Enabled(ss[i], steps[i]) && ss[i + 1] == Apply(ss[i], steps[i])
  }

  // Counting workers

  predicate Holds(x: Worker) {
    !x.phase.WaitSlot? && !x.phase.Leaving? && !x.phase.Gone?
  }

  predicate Alive(x: Worker) {
    !x.phase.Gone?
  }

  // The invariant

  predicate Finished(p: Phase) {
    p.FreeSlot? || p.Leaving? || p.Gone?
  }

  /** What a worker's phase says about its probe, its connection and the race. */
  predicate WorkerOk(s: State, w: nat)
    requires w < |s.workers|
  {
    var x := s.workers[w];
    var won := s.winner == Some(w);
    && (x.open ==> x.probe == Connected)
    && match x.phase
       case WaitSlot => x.probe == Unprobed && !won
       case CheckFound => x.probe == Unprobed && !won
       case Probing => x.probe == Unprobed && !won
       case Racing => x.open && !won
       case Sending => x.open && won && s.channel.None? && s.outcome != Found(w)
       case Cancelling => x.open && won && (s.channel == Some(w) || s.outcome == Found(w))
       case Discarding => x.open && !won && s.FoundFlag()
       case Defaulting => false
       case _ =>
         && x.open == won
         && (x.probe == Connected ==> s.FoundFlag())
         && (x.probe == Unprobed ==> s.FoundFlag() || s.ctxDone)
         && (won ==> s.scanCancelled && (s.channel == Some(w) || s.outcome == Found(w)))
  }

  predicate Counted(s: State) {
    && s.slots == Count(s.workers, Holds) <= CONCURRENCY
    && s.wg == Count(s.workers, Alive) + One(s.main == Committed)
  }

  predicate Global(s: State) {
    && !s.panicked
    && (s.winner.Some? ==> s.winner.value < |s.workers|)
    && (s.channel.Some? ==> s.channel == s.winner && !s.outcome.Found?)
    && (s.channelClosed ==> s.wg == 0 && (s.main == Selecting || s.main == Returned))
    && (s.main == Committed ==> |s.workers| < s.relays)
    && |s.workers| <= s.relays
    && (s.main == Selecting || s.main == Returned ==> s.FoundFlag() || |s.workers| == s.relays)
    && (s.scanCancelled ==> s.FoundFlag() || s.ctxDone || s.outcome == NotFound)
    && (s.main == Returned <==> s.outcome != Pending)
    && (s.main == Returned ==> s.scanCancelled)
    && match s.outcome
       case Pending => true
       case Found(w) => s.winner == Some(w)
       case NotFound => s.channelClosed && !s.FoundFlag()
       case Cancelled => s.ctxDone
  }

  predicate Inv(s: State) {
    Global(s) && Counted(s) && forall w: nat :: w < |s.workers| ==> WorkerOk(s, w)
  }

  /** Nobody is left once the wait group is empty. */
  lemma AllGone(s: State)
    requires Counted(s) && s.wg == 0
    ensures forall w: nat :: w < |s.workers| ==> s.workers[w].phase == Gone
  {
    CountZero(s.workers, Alive);
    forall w: nat | w < |s.workers|
      ensures s.workers[w].phase == Gone
    {
      assert !Alive(s.workers[w]);
    }
  }

  lemma StepCounted(s: State, step: Step)
    requires Counted(s) && Enabled(s, step)
    ensures Counted(Apply(s, step))
  {
    hide Count;
    var s' := Apply(s, step);
    if step == Spawn {
      CountAppend(s.workers, Worker(WaitSlot, Unprobed, false), Holds);
      CountAppend(s.workers, Worker(WaitSlot, Unprobed, false), Alive);
    } else if s'.workers != s.workers {
      var w := step.w;
      assert s'.workers == s.workers[w := s'.workers[w]];
      CountUpdate(s.workers, w, s'.workers[w], Holds);
      CountUpdate(s.workers, w, s'.workers[w], Alive);
      CountersFollow(s, step);
    }
  }

  lemma CountersFollow(s: State, step: Step)
    requires Enabled(s, step) && step != Spawn && Apply(s, step).workers != s.workers
    ensures var s' := Apply(s, step);
            && s'.main == s.main
            && s'.slots - s.slots == One(Holds(s'.workers[step.w])) - One(Holds(s.workers[step.w]))
            && s'.wg - s.wg == One(Alive(s'.workers[step.w])) - One(Alive(s.workers[step.w]))
            && (s'.slots <= s.slots || s'.slots <= CONCURRENCY)
  {
    match step
    case TakeSlot(_) =>
    case GiveUp(_) =>
    case ReleaseSlot(_) =>
    case Leave(_) =>
    case CloseConn(_) =>
    case _ =>
  }

  lemma StepGlobal(s: State, step: Step)
    requires Inv(s) && Enabled(s, step)
    ensures Global(Apply(s, step))
  {
    match step
    case Send(w) => assert WorkerOk(s, w); NotClosedWhileAlive(s, w);
    case CancelScan(w) => assert WorkerOk(s, w);
    case Win(w) => NotClosedWhileAlive(s, w);
    case Leave(w) => NotClosedWhileAlive(s, w);
    case ReceiveClosed =>
      AllGone(s);
      assert s.winner.Some? ==> WorkerOk(s, s.winner.value);
    case _ =>
  }

  /** The channel is never closed under a worker that is still there. */
  lemma NotClosedWhileAlive(s: State, w: nat)
    requires Inv(s) && w < |s.workers| && s.workers[w].phase != Gone
    ensures !s.channelClosed && s.outcome != NotFound
  {
    if s.wg == 0 {
      AllGone(s);
    }
  }

  /** A worker's own step keeps its part of the invariant. */
  lemma OwnStep(s: State, step: Step, v: nat)
    requires Global(s) && v < |s.workers| && WorkerOk(s, v) && Enabled(s, step)
    requires !s.channelClosed && s.outcome != NotFound
    requires Apply(s, step).workers != s.workers && |Apply(s, step).workers| == |s.workers| && step.w == v
    ensures WorkerOk(Apply(s, step), v)
  {
    match step
    case TakeSlot(_) => assert WorkerOk(Apply(s, step), v);
    case GiveUp(_) => assert WorkerOk(Apply(s, step), v);
    case Win(_) => assert WorkerOk(Apply(s, step), v);
    case Send(_) => assert WorkerOk(Apply(s, step), v);
    case CloseConn(_) => assert WorkerOk(Apply(s, step), v);
    case ProbeFails(_) => assert WorkerOk(Apply(s, step), v);
    case ProbeConnects(_) => assert WorkerOk(Apply(s, step), v);
    case Leave(_) => assert WorkerOk(Apply(s, step), v);
    case CancelScan(_) => assert WorkerOk(Apply(s, step), v);
    case _ =>
  }

  /** So does everything the others do. */
  lemma OthersStep(s: State, step: Step, v: nat)
    requires Global(s) && v < |s.workers| && WorkerOk(s, v) && Enabled(s, step)
    requires Apply(s, step).workers[v] == s.workers[v]
    requires step.Win? ==> step.w != v
    requires step.Send? ==> !s.channelClosed && WorkerOk(s, step.w)
    ensures WorkerOk(Apply(s, step), v)
  {
    match step
    case Win(_) => assert WorkerOk(Apply(s, step), v);
    case Send(_) => assert WorkerOk(Apply(s, step), v);
    case Receive => assert WorkerOk(Apply(s, step), v);
    case _ =>
  }

  lemma StepWorkers(s: State, step: Step, v: nat)
    requires Inv(s) && Enabled(s, step) && v < |Apply(s, step).workers|
    ensures WorkerOk(Apply(s, step), v)
  {
    var s' := Apply(s, step);
    if v == |s.workers| {
      assert s'.workers[v].phase == WaitSlot;
    } else if s'.workers[v] == s.workers[v] {
      if step.Send? {
        NotClosedWhileAlive(s, step.w);
      }
      OthersStep(s, step, v);
    } else {
      NotClosedWhileAlive(s, v);
      OwnStep(s, step, v);
    }
  }

  lemma StepInv(s: State, step: Step)
    requires Inv(s) && Enabled(s, step)
    ensures Inv(Apply(s, step))
  {
    StepCounted(s, step);
    StepGlobal(s, step);
    forall v: nat | v < |Apply(s, step).workers|
      ensures WorkerOk(Apply(s, step), v)
    {
      StepWorkers(s, step, v);
    }
  }

  lemma InitInv(relays: nat)
    ensures Inv(Init(relays))
  {
    CountZero([], Holds);
    CountZero([], Alive);
  }

  lemma {:induction false} RunInv(ss: seq<State>, steps: seq<Step>, relays: nat, i: nat)
    requires IsRun(ss, steps, relays) && i < |ss|
    ensures Inv(ss[i])
  {
    hide Inv;
    hide Apply;
    hide Enabled;
    if i == 0 {
      InitInv(relays);
    } else {
      RunInv(ss, steps, relays, i - 1);
      StepInv(ss[i - 1], steps[i - 1]);
    }
  }

  // What every run guarantees

  predicate IsProbing(x: Worker) {
    x.phase.Probing?
  }

  /** Safety in one state: no send on the closed channel and no default branch;
      at most 50 probes; only the winner's connection outlives its worker, and it
      is the one returned; the scan is cancelled once the winner is through and when
      it returns; "not found" means that nobody ever connected and,
      unless the context was cancelled, that every relay was probed and failed. */
  predicate Safe(s: State) {
    && !s.panicked
    && (forall w: nat :: w < |s.workers| ==> s.workers[w].phase != Defaulting)
    && Count(s.workers, IsProbing) <= 50
    && (forall w: nat :: w < |s.workers| && Finished(s.workers[w].phase) && s.workers[w].open ==> s.winner == Some(w))
    && (forall w: nat :: w < |s.workers| && Finished(s.workers[w].phase) && s.winner == Some(w) ==> s.scanCancelled)
    && (s.outcome != Pending ==> s.scanCancelled)
    && (s.outcome.Found? ==>
          && s.winner == Some(s.outcome.worker)
          && s.outcome.worker < |s.workers|
          && s.workers[s.outcome.worker].open)
    && (s.outcome == NotFound ==>
          && (forall w: nat :: w < |s.workers| ==> s.workers[w].phase == Gone && s.workers[w].probe != Connected)
          && (!s.ctxDone ==> |s.workers| == s.relays)
          && (!s.ctxDone ==> forall w: nat :: w < |s.workers| ==> s.workers[w].probe == ProbeFailed))
  }

  lemma InvSafe(s: State)
    requires Inv(s)
    ensures Safe(s)
  {
    CountMonotone(s.workers, IsProbing, Holds);
    if s.outcome == NotFound {
      AllGone(s);
    }
    forall w: nat | w < |s.workers|
      ensures s.workers[w].phase != Defaulting
      ensures Finished(s.workers[w].phase) && s.workers[w].open ==> s.winner == Some(w)
      ensures Finished(s.workers[w].phase) && s.winner == Some(w) ==> s.scanCancelled
      ensures s.outcome == NotFound ==> s.workers[w].probe != Connected
      ensures s.outcome == NotFound && !s.ctxDone ==> s.workers[w].probe == ProbeFailed
    {
      assert WorkerOk(s, w);
    }
    assert s.outcome.Found? ==> WorkerOk(s, s.outcome.worker);
  }

  lemma RunSafe(ss: seq<State>, steps: seq<Step>, relays: nat, i: nat)
    requires IsRun(ss, steps, relays) && i < |ss|
    ensures Safe(ss[i])
  {
    RunInv(ss, steps, relays, i);
    InvSafe(ss[i]);
  }

  /** Once the scan has an outcome, or the context is done, no worker needs a slot any
      more: one that waits can leave without. */
  lemma WaitersCanLeave(ss: seq<State>, steps: seq<Step>, relays: nat, i: nat, w: nat)
    requires IsRun(ss, steps, relays) && i < |ss| && ss[i].Is(w, WaitSlot)
    requires ss[i].outcome != Pending || ss[i].ctxDone
    ensures Enabled(ss[i], GiveUp(w)) && Apply(ss[i], GiveUp(w)).Is(w, Leaving)
    ensures Apply(ss[i], GiveUp(w)).slots == ss[i].slots
  {
    hide Count;
    RunSafe(ss, steps, relays, i);
  }

  /** Once the wait group has run out, every connection but the winner's is closed. */
  lemma OthersClosed(ss: seq<State>, steps: seq<Step>, relays: nat, i: nat, w: nat)
    requires IsRun(ss, steps, relays) && i < |ss| && ss[i].wg == 0
    requires w < |ss[i].workers| && ss[i].winner != Some(w)
    ensures !ss[i].workers[w].open
  {
    RunInv(ss, steps, relays, i);
    AllGone(ss[i]);
    assert WorkerOk(ss[i], w);
  }

  /** Whoever wins, wins for good. */
  lemma {:induction false} WinnerStays(ss: seq<State>, steps: seq<Step>, relays: nat, i: nat, j: nat)
    requires IsRun(ss, steps, relays) && i <= j < |ss| && ss[i].winner.Some?
    ensures ss[j].winner == ss[i].winner
  {
    if i < j {
      hide Apply;
      hide Enabled;
      WinnerStays(ss, steps, relays, i, j - 1);
      StepKeepsWinner(ss[j - 1], steps[j - 1]);
    }
  }

  lemma StepKeepsWinner(s: State, step: Step)
    requires Enabled(s, step) && s.winner.Some?
    ensures Apply(s, step).winner == s.winner
  {
  }

  /** Once somebody has won, no probe is begun and no further worker. */
  lemma NothingNewAfterWin(ss: seq<State>, steps: seq<Step>, relays: nat, i: nat, j: nat)
    requires IsRun(ss, steps, relays) && i <= j < |steps| && ss[i].winner.Some?
    ensures !steps[j].StartProbe? && !steps[j].Commit?
  {
    WinnerStays(ss, steps, relays, i, j);
    assert Enabled(ss[j], steps[j]);
  }

  /** At most one worker wins in a run. */
  lemma OneWin(ss: seq<State>, steps: seq<Step>, relays: nat, i: nat, j: nat)
    requires IsRun(ss, steps, relays) && i < |steps| && j < |steps| && steps[i].Win? && steps[j].Win?
    ensures i == j
  {
    var first, second := if i < j then i else j, if i < j then j else i;
    assert Enabled(ss[first], steps[first]) && Enabled(ss[second], steps[second]);
    if first < second {
      WinnerStays(ss, steps, relays, first + 1, second);
    }
  }

  // The scan ends

  function Rank(p: Phase): nat {
    match p
    case WaitSlot => 9
    case CheckFound => 8
    case Probing => 7
    case Racing => 6
    case Sending => 5
    case Cancelling => 4
    case Discarding => 4
    case Defaulting => 4
    case FreeSlot => 2
    case Leaving => 1
    case Gone => 0
  }

  function WorkerRank(x: Worker): nat {
    Rank(x.phase)
  }

  function MainRank(m: Main): nat {
    match m case Deciding => 3 case Committed => 2 case Selecting => 1 case Returned => 0
  }

  /** Goes down with every step. */
  function Measure(s: State): int {
    Total(s.workers, WorkerRank) + 11 * (s.relays - |s.workers|) + MainRank(s.main) +
    One(!s.channelClosed) + One(!s.ctxDone)
  }

  lemma StepDecreases(s: State, step: Step)
    requires Inv(s) && Enabled(s, step)
    ensures Measure(Apply(s, step)) < Measure(s)
  {
    hide Inv;
    hide Apply;
    hide Enabled;
    hide Measure;
    if step == Spawn {
      SpawnFalls(s);
    } else if OfWorker(step) && Apply(s, step).workers != s.workers {
      WorkerFalls(s, step);
    } else {
      OtherFalls(s, step);
    }
  }

  lemma WorkerFalls(s: State, step: Step)
    requires Enabled(s, step) && OfWorker(step) && Apply(s, step).workers != s.workers
    ensures Measure(Apply(s, step)) < Measure(s)
  {
    hide Apply;
    hide Enabled;
    hide Total;
    hide Rank;
    OneWorkerMoves(s, step);
    TotalUpdate(s.workers, step.w, Apply(s, step).workers[step.w], WorkerRank);
    PhasesFall(s, step);
    MainStays(s, step);
  }

  lemma OtherFalls(s: State, step: Step)
    requires Inv(s) && Enabled(s, step) && step != Spawn
    requires OfWorker(step) ==> Apply(s, step).workers == s.workers
    ensures Measure(Apply(s, step)) < Measure(s)
  {
    hide Inv;
    hide Apply;
    hide Enabled;
    hide Total;
    OthersKeepWorkers(s, step);
    MainFalls(s, step);
  }

  lemma SpawnFalls(s: State)
    requires Enabled(s, Spawn)
    ensures Measure(Apply(s, Spawn)) < Measure(s)
  {
    assert Apply(s, Spawn).workers[..|s.workers|] == s.workers;
  }

  lemma OneWorkerMoves(s: State, step: Step)
    requires Enabled(s, step) && OfWorker(step)
    ensures step.w < |s.workers| && |Apply(s, step).workers| == |s.workers|
    ensures Apply(s, step).workers == s.workers[step.w := Apply(s, step).workers[step.w]]
    ensures Apply(s, step).relays == s.relays
  {
  }

  lemma OthersKeepWorkers(s: State, step: Step)
    requires Enabled(s, step) && step != Spawn
    ensures !OfWorker(step) ==> Apply(s, step).workers == s.workers
    ensures Apply(s, step).relays == s.relays
  {
  }

  lemma PhasesFall(s: State, step: Step)
    requires Enabled(s, step) && OfWorker(step) && Apply(s, step).workers != s.workers
    ensures Rank(Apply(s, step).workers[step.w].phase) < Rank(s.workers[step.w].phase)
  {
    hide Count;
    var s' := Apply(s, step);
    match step
    case TakeSlot(w) => assert s'.workers[w].phase == CheckFound;
    case GiveUp(w) => assert s'.workers[w].phase == Leaving;
    case Send(w) => assert s'.workers[w].phase == Cancelling;
    case CloseConn(w) => assert s'.workers[w].phase == FreeSlot;
    case Leave(w) => assert s'.workers[w].phase == Gone;
    case _ =>
  }

  /** Steps taken by a worker. */
  predicate OfWorker(step: Step) {
    !(step.Commit? || step.Spawn? || step.EndLoop? || step.CloseChannel? || step.Receive? || step.ReceiveClosed? ||
      step.SeeCancelled? || step.CancelCtx?)
  }

  lemma MainStays(s: State, step: Step)
    requires Enabled(s, step) && OfWorker(step)
    ensures MainRank(Apply(s, step).main) == MainRank(s.main)
    ensures Apply(s, step).channelClosed == s.channelClosed && Apply(s, step).ctxDone == s.ctxDone
  {
  }

  lemma MainFalls(s: State, step: Step)
    requires Inv(s) && Enabled(s, step) && Apply(s, step).workers == s.workers
    ensures var s' := Apply(s, step);
            MainRank(s'.main) + One(!s'.channelClosed) + One(!s'.ctxDone)
              < MainRank(s.main) + One(!s.channelClosed) + One(!s.ctxDone)
  {
    if step.Send? {
      NotClosedWhileAlive(s, step.w);
    }
  }

  lemma MeasureBounds(s: State, relays: nat)
    ensures Measure(Init(relays)) == 11 * relays + 5
    ensures Inv(s) ==> Measure(s) >= 0
  {
  }

  /** No run has more than eleven steps per relay and five more. */
  lemma {:induction false} RunsAreFinite(ss: seq<State>, steps: seq<Step>, relays: nat, i: nat)
    requires IsRun(ss, steps, relays) && i < |ss|
    ensures i + Measure(ss[i]) <= 11 * relays + 5
    ensures i <= 11 * relays + 5
  {
    hide Inv;
    hide Apply;
    hide Enabled;
    hide Measure;
    RunInv(ss, steps, relays, i);
    MeasureBounds(ss[i], relays);
    if i > 0 {
      RunsAreFinite(ss, steps, relays, i - 1);
      RunInv(ss, steps, relays, i - 1);
      StepDecreases(ss[i - 1], steps[i - 1]);
    }
  }

  lemma SomeAlive(s: State)
    requires Counted(s) && s.wg > 0 && s.main != Committed
    ensures exists w: nat :: w < |s.workers| && Alive(s.workers[w])
  {
    CountZero(s.workers, Alive);
  }

  /** What an alive worker that is not waiting for a slot can always do. */
  function Ready(s: State, w: nat): Step
    requires w < |s.workers|
  {
    match s.workers[w].phase
    case WaitSlot => TakeSlot(w)
    case CheckFound => if s.FoundFlag() then SeeFound(w) else StartProbe(w)
    case Probing => ProbeFails(w)
    case Racing => if s.FoundFlag() then Lose(w) else Win(w)
    case Sending => Send(w)
    case Cancelling => CancelScan(w)
    case FreeSlot => ReleaseSlot(w)
    case Leaving => Leave(w)
    case _ => CloseConn(w)
  }

  /** The scan is never stuck: until it has returned, something other than an
      outside cancellation can happen. */
  lemma NeverStuck(s: State) returns (step: Step)
    requires Inv(s) && s.outcome == Pending
    ensures Enabled(s, step) && step != CancelCtx
  {
    if s.main == Deciding {
      step := if |s.workers| < s.relays && !s.FoundFlag() then Commit else EndLoop;
    } else if s.main == Committed {
      step := Spawn;
    } else if s.channel.Some? {
      step := Receive;
    } else if s.channelClosed {
      step := ReceiveClosed;
    } else if s.wg == 0 {
      step := CloseChannel;
    } else {
      SomeAlive(s);
      var w: nat :| w < |s.workers| && Alive(s.workers[w]);
      if s.workers[w].phase == WaitSlot && s.slots == CONCURRENCY {
        CountZero(s.workers, Holds);
        w :| w < |s.workers| && Holds(s.workers[w]);
      }
      assert WorkerOk(s, w);
      step := Ready(s, w);
    }
  }
}
