/** Stream accounting of the server (handleTunnel in server.go): any number of
    tunnels share one semaphore and one counter of active connections. */
module ServerStreams {
  import opened Counting

  const MAX_STREAMS: nat := 1024

  datatype Phase =
    | Establishing
    | SettingUp                // mux session and peer certificate
    | AtLoopTop(id: nat)       // OnConnect has been called
    | Accepting(id: nat)
    | Accepted(id: nat)        // has a stream, about to increment the counter
    | Waiting(id: nat)         // counted; select on the semaphore and the context
    | Dropping(id: nat)        // closed the stream, about to decrement
    | Exiting(id: nat)
    | Ended

  /** A tunnel with the callbacks made for it so far. */
  datatype Tunnel = Tunnel(phase: Phase, connects: seq<nat>, disconnects: seq<nat>)

  datatype Handler =
    | Running
    | Released   // token given back, not yet subtracted from the counter
    | Finished

  datatype State = State(tunnels: seq<Tunnel>, handlers: seq<Handler>, tokens: int, active: int, ctxDone: bool)
  {
    function To(t: nat, phase: Phase): State
      requires t < |tunnels|
    {
      this.(tunnels := tunnels[t := tunnels[t].(phase := phase)])
    }
  }

  const INIT := State([], [], 0, 0, false)

  /** Steps of a tunnel `t` or a handler `h`, and of the surroundings. */
  datatype Step =
    | Open
    | Establish(t: nat, ok: bool)
    | SetUp(t: nat, ok: bool, id: nat)
    | CheckContext(t: nat)
    | Accept(t: nat, ok: bool)
    | Increment(t: nat)
    | Admit(t: nat)
    | Drop(t: nat)
    | Decrement(t: nat)
    | Exit(t: nat)
    | Release(h: nat)
    | Subtract(h: nat)
    | Cancel

  predicate OfTunnel(step: Step) {
    !step.Open? && !step.Release? && !step.Subtract? && !step.Cancel?
  }

  predicate Enabled(s: State, step: Step) {
    if OfTunnel(step) then
      step.t < |s.tunnels| &&
      var p := s.tunnels[step.t].phase;
      match step
      case Establish(_, _) => p.Establishing?
      case SetUp(_, _, _) => p.SettingUp?
      case CheckContext(_) => p.AtLoopTop?
      case Accept(_, _) => p.Accepting?
      case Increment(_) => p.Accepted?
      case Admit(_) => p.Waiting? && s.tokens < MAX_STREAMS
      case Drop(_) => p.Waiting? && s.ctxDone
      case Decrement(_) => p.Dropping?
      case _ => p.Exiting?
    else
      match step
      case Release(h) => h < |s.handlers| && s.handlers[h].Running?
      case Subtract(h) => h < |s.handlers| && s.handlers[h].Released?
      case _ => true
  }

  function Apply(s: State, step: Step): State
    requires Enabled(s, step)
  {
    match step
    case Open => s.(tunnels := s.tunnels + [Tunnel(Establishing, [], [])])
    case Establish(t, ok) => s.To(t, if ok then SettingUp else Ended)
    case SetUp(t, ok, id) =>
      var x := s.tunnels[t];
      if ok then s.(tunnels := s.tunnels[t := Tunnel(AtLoopTop(id), x.connects + [id], x.disconnects)])
      else s.To(t, Ended)
    case CheckContext(t) =>
      var id := s.tunnels[t].phase.id;
      s.To(t, if s.ctxDone then Exiting(id) else Accepting(id))
    case Accept(t, ok) =>
      var id := s.tunnels[t].phase.id;
      s.To(t, if ok then Accepted(id) else Exiting(id))
    case Increment(t) => s.To(t, Waiting(s.tunnels[t].phase.id)).(active := s.active + 1)
    case Admit(t) =>
      s.To(t, AtLoopTop(s.tunnels[t].phase.id)).(tokens := s.tokens + 1, handlers := s.handlers + [Running])
    case Drop(t) => s.To(t, Dropping(s.tunnels[t].phase.id))
    case Decrement(t) => s.To(t, Exiting(s.tunnels[t].phase.id)).(active := s.active - 1)
    case Exit(t) =>
      var x := s.tunnels[t];
      s.(tunnels := s.tunnels[t := Tunnel(Ended, x.connects, x.disconnects + [x.phase.id])])
    case Release(h) => s.(handlers := s.handlers[h := Released], tokens := s.tokens - 1)
    case Subtract(h) => s.(handlers := s.handlers[h := Finished], active := s.active - 1)
    case Cancel => s.(ctxDone := true)
  }

  ghost predicate IsRun(ss: seq<State>, steps: seq<Step>) {
    |ss| == |steps| + 1 && ss[0] == INIT &&
    forall i :: 0 <= i < |steps| ==> Enabled(ss[i], steps[i]) && ss[i + 1] == Apply(ss[i], steps[i])
  }

  predicate Holding(t: Tunnel) {
    t.phase.Waiting? || t.phase.Dropping?
  }

  predicate IsRunning(h: Handler) {
    h.Running?
  }

  predicate IsReleased(h: Handler) {
    h.Released?
  }

  predicate TokensOk(s: State) {
    s.tokens == Count(s.handlers, IsRunning) <= MAX_STREAMS
  }

  predicate ActiveOk(s: State) {
    s.active == Count(s.tunnels, Holding) + Count(s.handlers, IsRunning) + Count(s.handlers, IsReleased)
  }

  /** The callbacks of a tunnel agree with its phase: none before OnConnect, then
      that one, and at the end either none or OnConnect and OnDisconnect of the
      same client. */
  predicate CallbacksOk(t: Tunnel) {
    match t.phase
    case Establishing => t.connects == [] && t.disconnects == []
    case SettingUp => t.connects == [] && t.disconnects == []
    case Ended => t.connects == t.disconnects && |t.connects| <= 1
    case _ => t.connects == [t.phase.id] && t.disconnects == []
  }

  predicate Inv(s: State) {
    TokensOk(s) && ActiveOk(s) && forall t :: t in s.tunnels ==> CallbacksOk(t)
  }

  lemma StepTokens(s: State, step: Step)
    requires TokensOk(s) && Enabled(s, step)
    ensures TokensOk(Apply(s, step))
  {
    hide Count;
    match step
    case Admit(_) => CountAppend(s.handlers, Running, IsRunning);
    case Release(h) => CountUpdate(s.handlers, h, Released, IsRunning);
    case Subtract(h) => CountUpdate(s.handlers, h, Finished, IsRunning);
    case _ =>
  }

  lemma StepActive(s: State, step: Step)
    requires ActiveOk(s) && Enabled(s, step)
    ensures ActiveOk(Apply(s, step))
  {
    hide Count;
    if OfTunnel(step) {
      CountUpdate(s.tunnels, step.t, Apply(s, step).tunnels[step.t], Holding);
    }
    match step
    case Open => CountAppend(s.tunnels, Tunnel(Establishing, [], []), Holding);
    case Admit(_) =>
      CountAppend(s.handlers, Running, IsRunning);
      CountAppend(s.handlers, Running, IsReleased);
    case Release(h) =>
      CountUpdate(s.handlers, h, Released, IsRunning);
      CountUpdate(s.handlers, h, Released, IsReleased);
    case Subtract(h) =>
      CountUpdate(s.handlers, h, Finished, IsRunning);
      CountUpdate(s.handlers, h, Finished, IsReleased);
    case _ =>
  }

  lemma StepCallbacks(s: State, step: Step)
    requires (forall t :: t in s.tunnels ==> CallbacksOk(t)) && Enabled(s, step)
    ensures forall t :: t in Apply(s, step).tunnels ==> CallbacksOk(t)
  {
    if OfTunnel(step) {
      var x := s.tunnels[step.t];
      assert x in s.tunnels;
      assert CallbacksOk(Apply(s, step).tunnels[step.t]);
    }
  }

  lemma StepInv(s: State, step: Step)
    requires Inv(s) && Enabled(s, step)
    ensures Inv(Apply(s, step))
  {
    hide Apply;
    hide TokensOk;
    hide ActiveOk;
    StepTokens(s, step);
    StepActive(s, step);
    StepCallbacks(s, step);
  }

  lemma {:induction false} RunInv(ss: seq<State>, steps: seq<Step>, i: nat)
    requires IsRun(ss, steps) && i < |ss|
    ensures Inv(ss[i])
  {
    if i == 0 {
      CountZero(INIT.handlers, IsRunning);
      CountZero(INIT.handlers, IsReleased);
      CountZero(INIT.tunnels, Holding);
    } else {
      hide Inv;
      hide Apply;
      hide Enabled;
      RunInv(ss, steps, i - 1);
      StepInv(ss[i - 1], steps[i - 1]);
    }
  }

  /** In every state of every run: as many tokens are out as handlers run, at most
      1024; the counter is the number of streams that wait, run, or have given
      back their token without being subtracted; and a tunnel that has ended had
      OnConnect and OnDisconnect once each for the same client, or neither. */
  lemma RunSafe(ss: seq<State>, steps: seq<Step>, i: nat)
    requires IsRun(ss, steps) && i < |ss|
    ensures var s := ss[i];
            && s.tokens == Count(s.handlers, IsRunning) <= 1024
            && s.active == Count(s.tunnels, Holding) + Count(s.handlers, IsRunning) + Count(s.handlers, IsReleased)
            && forall t :: t in s.tunnels ==>
                 && t.disconnects <= t.connects && |t.connects| <= 1
                 && (t.phase.Ended? ==> t.connects == t.disconnects)
  {
    hide Count;
    RunInv(ss, steps, i);
    forall t | t in ss[i].tunnels
      ensures t.disconnects <= t.connects && |t.connects| <= 1
      ensures t.phase.Ended? ==> t.connects == t.disconnects
    {
      assert CallbacksOk(t);
    }
  }

  /** Once every tunnel has ended and every handler has finished, no token is out
      and the counter is back at zero. */
  lemma AllOver(ss: seq<State>, steps: seq<Step>, i: nat)
    requires IsRun(ss, steps) && i < |ss|
    requires forall t :: t in ss[i].tunnels ==> t.phase.Ended?
    requires forall h :: h in ss[i].handlers ==> h.Finished?
    ensures ss[i].tokens == 0 && ss[i].active == 0
  {
    RunInv(ss, steps, i);
    var s := ss[i];
    assert forall h: nat :: h < |s.handlers| ==> s.handlers[h] in s.handlers;
    assert forall t: nat :: t < |s.tunnels| ==> s.tunnels[t] in s.tunnels;
    CountZero(s.handlers, IsRunning);
    CountZero(s.handlers, IsReleased);
    CountZero(s.tunnels, Holding);
  }

  /** After a cancellation a tunnel at the top of its loop takes no further stream, and
      one that waits for a slot may give up. */
  lemma CancelledTunnelsLeave(ss: seq<State>, steps: seq<Step>, i: nat, t: nat)
    requires IsRun(ss, steps) && i < |steps| && ss[i].ctxDone && t < |ss[i].tunnels|
    ensures steps[i] == CheckContext(t) ==> ss[i + 1].tunnels[t].phase.Exiting?
    ensures ss[i].tunnels[t].phase.Waiting? ==> Enabled(ss[i], Drop(t))
    ensures ss[i + 1].ctxDone
  {
    assert Enabled(ss[i], steps[i]) && ss[i + 1] == Apply(ss[i], steps[i]);
  }

  /** Without a cancellation no stream is turned away: a tunnel that waits for a slot
      can only be admitted, and then its stream is handled. */
  lemma WaitingAreAdmitted(ss: seq<State>, steps: seq<Step>, i: nat, t: nat)
    requires IsRun(ss, steps) && i < |steps| && !ss[i].ctxDone
    requires t < |ss[i].tunnels| && ss[i].tunnels[t].phase.Waiting? && OfTunnel(steps[i]) && steps[i].t == t
    ensures |ss[i + 1].handlers| == |ss[i].handlers| + 1 && ss[i + 1].handlers[|ss[i].handlers|] == Running
    ensures ss[i + 1].tunnels[t].phase == AtLoopTop(ss[i].tunnels[t].phase.id)
    ensures Count(ss[i].handlers, IsRunning) < 1024
  {
    RunInv(ss, steps, i);
    assert Enabled(ss[i], steps[i]) && ss[i + 1] == Apply(ss[i], steps[i]);
  }

  function NextOf(t: nat, p: Phase): Step {
    match p
    case Establishing => Establish(t, true)
    case SettingUp => SetUp(t, true, 0)
    case AtLoopTop(_) => CheckContext(t)
    case Accepting(_) => Accept(t, true)
    case Accepted(_) => Increment(t)
    case Waiting(_) => Admit(t)
    case Dropping(_) => Decrement(t)
    case _ => Exit(t)
  }

  /** The accounting never blocks for good: a tunnel that has not ended can make a
      step, or it waits while 1024 handlers run, any of which can finish. */
  lemma NeverBlocked(ss: seq<State>, steps: seq<Step>, i: nat, t: nat)
    requires IsRun(ss, steps) && i < |ss|
    requires t < |ss[i].tunnels| && !ss[i].tunnels[t].phase.Ended?
    ensures || (exists step :: OfTunnel(step) && step.t == t && Enabled(ss[i], step))
            || (&& ss[i].tunnels[t].phase.Waiting? && Count(ss[i].handlers, IsRunning) == 1024
                && exists h :: Enabled(ss[i], Release(h)))
  {
    var s := ss[i];
    var p := s.tunnels[t].phase;
    RunInv(ss, steps, i);
    if p.Waiting? && s.tokens >= MAX_STREAMS {
      CountZero(s.handlers, IsRunning);
      var h: nat :| h < |s.handlers| && IsRunning(s.handlers[h]);
      assert Enabled(s, Release(h));
    } else {
      var step := NextOf(t, p);
      assert OfTunnel(step) && step.t == t && Enabled(s, step);
    }
  }
}
