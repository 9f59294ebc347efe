/** CopyBidirectional (pkg/network/copy.go): two copy loops on two connections.
    Loop 0 writes to connection 0 what it reads from connection 1, and loop 1 the
    other way round. */
module CopyPair {
  import opened Numerals
  import opened Copy

  /** How the loop that writes to a connection can close it: its write side alone;
      or as a whole, where reading goes on for a while and is then cut off, as for
      a yamux stream after its close timeout; or as a whole at once. */
  datatype Closing = WriteSide | CutOffLater | AtOnce

  /** `inputs[i]` is all that the source of loop `i` has to deliver, and
      `closing[i]` is what closing its destination does. The other loop reads from
      that connection. */
  datatype Setup = Setup(inputs: seq<Bytes>, closing: seq<Closing>)
  {
    predicate Valid() {
      |inputs| == 2 && |closing| == 2
    }
  }

  /** `cut[i]`: the source of loop `i` lets nothing more through. */
  datatype State = State(flows: seq<Flow>, cut: seq<bool>)
  {
    predicate Valid() {
      |flows| == 2 && |cut| == 2
    }
  }

  /** A step of a loop, or the cut-off of its source. */
  datatype Turn = Turn(loop: nat, step: Step) | CutOff(loop: nat)

  const INIT := State([START, START], [false, false])

  /** A source delivers its bytes in order and then ends; one that has been closed
      ends at once. */
  predicate Readable(input: Bytes, cut: bool, delivered: Bytes, chunk: Bytes, ended: bool) {
    && delivered + chunk <= input
    && if cut then chunk == [] && ended else ended ==> delivered + chunk == input
  }

  predicate MayStep(u: Setup, s: State, turn: Turn)
    requires u.Valid() && s.Valid()
  {
    var i := turn.loop;
    i < 2 &&
    match turn
    case Turn(_, step) =>
      && Copy.Enabled(s.flows[i], step)
      && (step.Read? ==> Readable(u.inputs[i], s.cut[i], s.flows[i].delivered, step.chunk, step.ended))
    case CutOff(_) => u.closing[1 - i] == CutOffLater && s.flows[1 - i].phase.Closed?
  }

  function After(u: Setup, s: State, turn: Turn): (s': State)
    requires u.Valid() && s.Valid() && MayStep(u, s, turn)
    ensures s'.Valid()
  {
    var i := turn.loop;
    match turn
    case Turn(_, step) =>
      State(s.flows[i := Copy.Apply(s.flows[i], step)],
            if step.Close? && u.closing[i] == AtOnce then s.cut[1 - i := true] else s.cut)
    case CutOff(_) => s.(cut := s.cut[i := true])
  }

  ghost predicate IsPairRun(u: Setup, ss: seq<State>, turns: seq<Turn>)
    requires u.Valid()
  {
    |ss| == |turns| + 1 && ss[0] == INIT && (forall i :: 0 <= i < |ss| ==> ss[i].Valid()) &&
    forall i :: 0 <= i < |turns| ==> MayStep(u, ss[i], turns[i]) && ss[i + 1] == After(u, ss[i], turns[i])
  }

  /** Both loops have ended, and no write failed. */
  predicate Done(s: State)
    requires s.Valid()
  {
    forall i: nat :: i < 2 ==> s.flows[i].phase.Closed? && !s.flows[i].writeFailed
  }

  predicate Complete(u: Setup, s: State)
    requires u.Valid() && s.Valid()
  {
    forall i: nat :: i < 2 ==> s.flows[i].received == u.inputs[i]
  }

  predicate Ending(f: Flow) {
    f.phase.Stopped? || f.phase.Closed? || (f.phase.Writing? && f.phase.ended)
  }

  predicate LoopOk(u: Setup, s: State, i: nat)
    requires u.Valid() && s.Valid() && i < 2
  {
    var f := s.flows[i];
    && Faithful(f)
    && f.delivered <= u.inputs[i]
    && (Ending(f) && !f.writeFailed ==> f.delivered == u.inputs[i] || s.cut[i])
    && (s.cut[i] ==> u.closing[1 - i] != WriteSide && s.flows[1 - i].phase.Closed?)
  }

  lemma StepOk(u: Setup, s: State, turn: Turn, i: nat)
    requires u.Valid() && s.Valid() && MayStep(u, s, turn) && i < 2
    requires LoopOk(u, s, 0) && LoopOk(u, s, 1)
    ensures LoopOk(u, After(u, s, turn), i)
  {
    if turn.Turn? && turn.loop == i {
      StepFaithful(s.flows[i], turn.step);
    }
  }

  lemma {:induction false} RunOk(u: Setup, ss: seq<State>, turns: seq<Turn>, n: nat, i: nat)
    requires u.Valid() && IsPairRun(u, ss, turns) && n < |ss| && i < 2
    ensures LoopOk(u, ss[n], i)
  {
    hide LoopOk;
    hide After;
    hide MayStep;
    if n == 0 {
      StartOk(u, i);
    } else {
      RunOk(u, ss, turns, n - 1, 0);
      RunOk(u, ss, turns, n - 1, 1);
      StepOk(u, ss[n - 1], turns[n - 1], i);
    }
  }

  lemma StartOk(u: Setup, i: nat)
    requires u.Valid() && i < 2
    ensures LoopOk(u, INIT, i)
  {
  }

  /** Once its source has been cut off, a loop delivers nothing more. */
  lemma {:induction false} NothingAfterCut(u: Setup, ss: seq<State>, turns: seq<Turn>, k: nat, n: nat, i: nat)
    requires u.Valid() && IsPairRun(u, ss, turns) && k <= n < |ss| && i < 2 && ss[k].cut[i]
    ensures ss[n].cut[i] && ss[n].flows[i].delivered == ss[k].flows[i].delivered
  {
    if k < n {
      NothingAfterCut(u, ss, turns, k, n - 1, i);
      assert MayStep(u, ss[n - 1], turns[n - 1]);
    }
  }

  /** How a finished direction comes out. Nothing is lost if the other loop closes
      only the write side of the connection that this one reads; otherwise the loss
      is exactly what had not been read when that connection was cut off, if it was
      before this loop came to the end of its input. */
  lemma Outcome(u: Setup, ss: seq<State>, turns: seq<Turn>, n: nat, i: nat)
    requires u.Valid() && IsPairRun(u, ss, turns) && n < |ss| && i < 2 && Done(ss[n])
    ensures u.closing[1 - i] == WriteSide ==> ss[n].flows[i].received == u.inputs[i]
    ensures !ss[n].cut[i] ==> ss[n].flows[i].received == u.inputs[i]
    ensures forall k: nat :: k <= n && ss[k].cut[i] ==>
              ss[n].flows[i].received == ss[k].flows[i].delivered <= u.inputs[i]
  {
    RunOk(u, ss, turns, n, i);
    var f := ss[n].flows[i];
    assert f.delivered == f.received + [] == f.received;
    forall k: nat | k <= n && ss[k].cut[i]
      ensures f.received == ss[k].flows[i].delivered
    {
      NothingAfterCut(u, ss, turns, k, n, i);
    }
  }

  ghost predicate AlwaysComplete(u: Setup)
    requires u.Valid()
  {
    forall ss, turns :: IsPairRun(u, ss, turns) && Done(ss[|turns|]) ==> Complete(u, ss[|turns|])
  }

  /** What loop `i` reads is safe: its source keeps its read side, or has nothing. */
  predicate SafeToRead(u: Setup, i: nat)
    requires u.Valid() && i < 2
  {
    u.closing[1 - i] == WriteSide || u.inputs[i] == []
  }

  /** Every finished exchange without a write error is complete in both directions
      if and only if each connection closes its write side alone or has nothing to
      deliver. */
  lemma CompleteIff(u: Setup)
    requires u.Valid()
    ensures AlwaysComplete(u) <==> SafeToRead(u, 0) && SafeToRead(u, 1)
  {
    if SafeToRead(u, 0) && SafeToRead(u, 1) {
      forall ss: seq<State>, turns: seq<Turn> | IsPairRun(u, ss, turns) && Done(ss[|turns|])
        ensures Complete(u, ss[|turns|])
      {
        var n := |turns|;
        Outcome(u, ss, turns, n, 0);
        Outcome(u, ss, turns, n, 1);
        RunOk(u, ss, turns, n, 0);
        RunOk(u, ss, turns, n, 1);
      }
    } else {
      var i: nat := if SafeToRead(u, 1) then 1 else 0;
      var ss, turns := LosingRun(u, i);
    }
  }

  /** The program's own tunnels: the first connection is a yamux stream, the second
      a TCP connection. What goes into the tunnel always arrives; what comes out of
      it is sure to arrive only if it is empty. */
  lemma TunnelOneWay(u: Setup)
    requires u.Valid() && u.closing == [CutOffLater, WriteSide]
    ensures AlwaysComplete(u) <==> u.inputs[1] == []
    ensures forall ss: seq<State>, turns: seq<Turn> :: IsPairRun(u, ss, turns) && Done(ss[|turns|]) ==>
              ss[|turns|].flows[0].received == u.inputs[0]
  {
    CompleteIff(u);
    forall ss: seq<State>, turns: seq<Turn> | IsPairRun(u, ss, turns) && Done(ss[|turns|])
      ensures ss[|turns|].flows[0].received == u.inputs[0]
    {
      Outcome(u, ss, turns, |turns|, 0);
    }
  }

  lemma Extended(u: Setup, ss: seq<State>, turns: seq<Turn>, turn: Turn)
    returns (ss': seq<State>, turns': seq<Turn>)
    requires u.Valid() && IsPairRun(u, ss, turns) && MayStep(u, ss[|turns|], turn)
    ensures IsPairRun(u, ss', turns') && ss'[|turns'|] == After(u, ss[|turns|], turn)
  {
    ss', turns' := ss + [After(u, ss[|turns|], turn)], turns + [turn];
  }

  /** Loop `i` copies all it has and closes its destination. */
  lemma OneLoopRuns(u: Setup, i: nat) returns (ss: seq<State>, turns: seq<Turn>)
    requires u.Valid() && i < 2
    ensures IsPairRun(u, ss, turns)
    ensures var s, input := ss[|turns|], u.inputs[i];
            && s.flows[i] == Flow(input, input, Closed, false) && s.flows[1 - i] == START
            && (u.closing[i] == AtOnce ==> s.cut[1 - i])
  {
    var input := u.inputs[i];
    ss, turns := [INIT], [];
    ss, turns := Extended(u, ss, turns, Turn(i, Read(input, true)));
    if input != [] {
      ss, turns := Extended(u, ss, turns, Turn(i, Write(|input|, true)));
    }
    ss, turns := Extended(u, ss, turns, Turn(i, Close));
  }

  lemma SourceCutOff(u: Setup, i: nat) returns (ss: seq<State>, turns: seq<Turn>)
    requires u.Valid() && i < 2 && u.closing[i] != WriteSide
    ensures IsPairRun(u, ss, turns)
    ensures var s, input := ss[|turns|], u.inputs[i];
            s.flows[i] == Flow(input, input, Closed, false) && s.flows[1 - i] == START && s.cut[1 - i]
  {
    ss, turns := OneLoopRuns(u, i);
    if u.closing[i] == CutOffLater {
      ss, turns := Extended(u, ss, turns, CutOff(1 - i));
    }
  }

  /** Loop `i` is done, and its destination cut off, before the other loop has read
      anything. */
  lemma LosingRun(u: Setup, i: nat) returns (ss: seq<State>, turns: seq<Turn>)
    requires u.Valid() && i < 2 && !SafeToRead(u, 1 - i)
    ensures IsPairRun(u, ss, turns) && Done(ss[|turns|]) && !Complete(u, ss[|turns|])
  {
    ss, turns := SourceCutOff(u, i);
    ss, turns := Extended(u, ss, turns, Turn(1 - i, Read([], true)));
    ss, turns := Extended(u, ss, turns, Turn(1 - i, Close));
    var s := ss[|turns|];
    assert s.flows[1 - i].received == [];
    assert s.flows[i].phase.Closed? && s.flows[1 - i].phase.Closed?;
  }
}
