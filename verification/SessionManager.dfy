/** The client's session manager (getSessionWithGen and invalidateSessionIfMatch
    in client.go): any number of callers under one read-write lock, while the
    other side may close a session at any moment. Sessions are numbered in the
    order in which they are made. */
module SessionManager {
  import opened Text

  /** Where a caller stands. */
  datatype Phase =
    | Idle
    | WantRead
    | Snapshot                                   // holds the read lock
    | FastCheck(session: Option<nat>, gen: nat)  // holds the read lock, has copied both fields
    | WantWrite
    | Recheck                                    // holds the write lock from here on
    | DropConn
    | Establishing
    | Installing(made: nat)
    | WantInvalidate(target: nat)
    | Matching(target: nat)                      // holds the write lock

  datatype State = State(
    session: Option<nat>, bepConn: Option<nat>, gen: nat,
    made: nat, open: set<nat>, openConns: set<nat>,
    readers: set<nat>, writer: Option<nat>, callers: map<nat, Phase>,
    names: map<nat, nat>, returned: seq<(nat, nat)>)
  {
    function At(c: nat): Phase {
      if c in callers then callers[c] else Idle
    }

    function To(c: nat, p: Phase): State {
      this.(callers := callers[c := p])
    }

    predicate Live() {
      session.Some? && session.value in open
    }

    /** Returning from getSessionWithGen, noted in the history. */
    function Return(c: nat, x: nat, g: nat): State {
      To(c, Idle).(returned := returned + [(x, g)])
    }
  }

  const INIT := State(None, None, 0, 0, {}, {}, {}, None, map[], map[], [])

  function AsSet(o: Option<nat>): set<nat> {
    if o.Some? then {o.value} else {}
  }

  datatype Step =
    | StartGet(c: nat) | LockRead(c: nat) | Snap(c: nat) | FastReturn(c: nat) | FastMiss(c: nat)
    | LockWrite(c: nat) | SlowReturn(c: nat) | CloseOld(c: nat) | CloseOldConn(c: nat)
    | EstablishFails(c: nat) | EstablishOk(c: nat) | Install(c: nat)
    | StartInvalidate(c: nat, target: nat) | LockInvalidate(c: nat) | Mismatch(c: nat) | Invalidate(c: nat)
    | OutsideClose(x: nat)

  predicate Enabled(s: State, step: Step) {
    match step
    case StartGet(c) => s.At(c).Idle?
    case LockRead(c) => s.At(c).WantRead? && s.writer.None?
    case Snap(c) => s.At(c).Snapshot?
    case FastReturn(c) => s.At(c).FastCheck? && s.At(c).session.Some? && s.At(c).session.value in s.open
    case FastMiss(c) => s.At(c).FastCheck? && !(s.At(c).session.Some? && s.At(c).session.value in s.open)
    case LockWrite(c) => s.At(c).WantWrite? && s.writer.None? && s.readers == {}
    case SlowReturn(c) => s.At(c).Recheck? && s.Live()
    case CloseOld(c) => s.At(c).Recheck? && !s.Live()
    case CloseOldConn(c) => s.At(c).DropConn?
    case EstablishFails(c) => s.At(c).Establishing?
    case EstablishOk(c) => s.At(c).Establishing?
    case Install(c) => s.At(c).Installing?
    case StartInvalidate(c, _) => s.At(c).Idle?
    case LockInvalidate(c) => s.At(c).WantInvalidate? && s.writer.None? && s.readers == {}
    case Mismatch(c) => s.At(c).Matching? && s.gen != s.At(c).target
    case Invalidate(c) => s.At(c).Matching? && s.gen == s.At(c).target
    case OutsideClose(x) => x in s.open
  }

  function Apply(s: State, step: Step): State
    requires Enabled(s, step)
  {
    match step
    case StartGet(c) => s.To(c, WantRead)
    case LockRead(c) => s.To(c, Snapshot).(readers := s.readers + {c})
    case Snap(c) => s.To(c, FastCheck(s.session, s.gen))
    case FastReturn(c) => s.Return(c, s.At(c).session.value, s.At(c).gen).(readers := s.readers - {c})
    case FastMiss(c) => s.To(c, WantWrite).(readers := s.readers - {c})
    case LockWrite(c) => s.To(c, Recheck).(writer := Some(c))
    case SlowReturn(c) => s.Return(c, s.session.value, s.gen).(writer := None)
    case CloseOld(c) => s.To(c, DropConn).(open := s.open - AsSet(s.session), session := None)
    case CloseOldConn(c) => s.To(c, Establishing).(openConns := s.openConns - AsSet(s.bepConn), bepConn := None)
    case EstablishFails(c) => s.To(c, Idle).(writer := None)
    case EstablishOk(c) =>
      s.To(c, Installing(s.made)).(made := s.made + 1, open := s.open + {s.made}, openConns := s.openConns + {s.made})
    case Install(c) =>
      var x, g := s.At(c).made, s.gen + 1;
      s.Return(c, x, g).(session := Some(x), bepConn := Some(x), gen := g, names := s.names[g := x], writer := None)
    case StartInvalidate(c, target) => s.To(c, WantInvalidate(target))
    case LockInvalidate(c) => s.To(c, Matching(s.At(c).target)).(writer := Some(c))
    case Mismatch(c) => s.To(c, Idle).(writer := None)
    case Invalidate(c) =>
      s.To(c, Idle).(open := s.open - AsSet(s.session), session := None,
                     openConns := s.openConns - AsSet(s.bepConn), bepConn := None, writer := None)
    case OutsideClose(x) => s.(open := s.open - {x})
  }

  ghost predicate IsRun(ss: seq<State>, steps: seq<Step>) {
    |ss| == |steps| + 1 && ss[0] == INIT &&
    forall i :: 0 <= i < |steps| ==> Enabled(ss[i], steps[i]) && ss[i + 1] == Apply(ss[i], steps[i])
  }

  predicate ReadPhase(p: Phase) {
    p.Snapshot? || p.FastCheck?
  }

  predicate WritePhase(p: Phase) {
    p.Recheck? || p.DropConn? || p.Establishing? || p.Installing? || p.Matching?
  }

  /** The session a writer has made but not installed. */
  function InHand(s: State): set<nat> {
    if s.writer.Some? && s.At(s.writer.value).Installing? then {s.At(s.writer.value).made} else {}
  }

  /** Lock discipline, and what each phase knows about the fields. */
  ghost predicate CallerOk(s: State, c: nat) {
    && (c in s.readers <==> ReadPhase(s.At(c)))
    && (s.writer == Some(c) <==> WritePhase(s.At(c)))
    && match s.At(c)
       case FastCheck(session, gen) => session == s.session && gen == s.gen
       case DropConn => s.session.None?
       case Establishing => s.session.None? && s.bepConn.None?
       case Installing(x) => s.session.None? && s.bepConn.None? && x < s.made
       case _ => true
  }

  ghost predicate Inv(s: State) {
    && (forall c: nat :: CallerOk(s, c))
    && (s.writer.Some? ==> s.readers == {})
    && (forall g :: g in s.names <==> 1 <= g <= s.gen)
    && (forall g :: g in s.names ==> s.names[g] < s.made && s.names[g] !in InHand(s))
    && (forall g, h :: g in s.names && h in s.names && g != h ==> s.names[g] != s.names[h])
    && (s.session.Some? ==> s.gen in s.names && s.names[s.gen] == s.session.value)
    && (forall p :: p in s.returned ==> p.1 in s.names && s.names[p.1] == p.0)
    && s.open <= AsSet(s.session) + InHand(s)
    && s.openConns <= AsSet(s.bepConn) + InHand(s)
  }

  function Actor(step: Step): Option<nat> {
    if step.OutsideClose? then None else Some(step.c)
  }

  ghost predicate LockOk(s: State) {
    s.writer.Some? ==> s.readers == {}
  }

  lemma OwnStep(s: State, step: Step)
    requires LockOk(s) && Actor(step).Some? && CallerOk(s, step.c) && Enabled(s, step)
    ensures CallerOk(Apply(s, step), step.c)
  {
  }

  lemma OthersStep(s: State, step: Step, d: nat)
    requires LockOk(s) && CallerOk(s, d) && Enabled(s, step)
    requires Actor(step).Some? ==> step.c != d && CallerOk(s, step.c)
    ensures CallerOk(Apply(s, step), d)
  {
    assert Apply(s, step).At(d) == s.At(d);
  }

  lemma StepNames(s: State, step: Step)
    requires Inv(s) && Enabled(s, step)
    ensures var s' := Apply(s, step);
            && (forall g :: g in s'.names <==> 1 <= g <= s'.gen)
            && (forall g :: g in s'.names ==> s'.names[g] < s'.made && s'.names[g] !in InHand(s'))
            && (forall g, h :: g in s'.names && h in s'.names && g != h ==> s'.names[g] != s'.names[h])
            && (s'.session.Some? ==> s'.gen in s'.names && s'.names[s'.gen] == s'.session.value)
  {
    if Actor(step).Some? {
      assert CallerOk(s, step.c);
    }
    if s.writer.Some? {
      assert CallerOk(s, s.writer.value);
    }
  }

  lemma StepReturned(s: State, step: Step)
    requires Inv(s) && Enabled(s, step)
    ensures var s' := Apply(s, step);
            forall p :: p in s'.returned ==> p.1 in s'.names && s'.names[p.1] == p.0
  {
    if Actor(step).Some? {
      assert CallerOk(s, step.c);
    }
  }

  lemma StepOpen(s: State, step: Step)
    requires Inv(s) && Enabled(s, step)
    ensures var s' := Apply(s, step);
            && (s'.writer.Some? ==> s'.readers == {})
            && s'.open <= AsSet(s'.session) + InHand(s')
            && s'.openConns <= AsSet(s'.bepConn) + InHand(s')
  {
    if Actor(step).Some? {
      assert CallerOk(s, step.c);
    }
    if s.writer.Some? {
      assert CallerOk(s, s.writer.value);
    }
  }

  lemma StepInv(s: State, step: Step)
    requires Inv(s) && Enabled(s, step)
    ensures Inv(Apply(s, step))
  {
    forall d: nat
      ensures CallerOk(Apply(s, step), d)
    {
      assert CallerOk(s, d);
      if Actor(step) == Some(d) {
        OwnStep(s, step);
      } else {
        assert Actor(step).Some? ==> CallerOk(s, step.c);
        OthersStep(s, step, d);
      }
    }
    StepNames(s, step);
    StepReturned(s, step);
    StepOpen(s, step);
  }

  lemma {:induction false} RunInv(ss: seq<State>, steps: seq<Step>, i: nat)
    requires IsRun(ss, steps) && i < |ss|
    ensures Inv(ss[i])
  {
    if i > 0 {
      hide Inv;
      hide Apply;
      hide Enabled;
      RunInv(ss, steps, i - 1);
      StepInv(ss[i - 1], steps[i - 1]);
    }
  }

  /** In every state of every run: each generation up to the current one names
      exactly one session and no two name the same; every pair ever returned
      agrees with that; at most one established session is open, and it is the
      installed one or the one its maker is about to install; and while a caller
      has the write lock nobody else has the lock. */
  lemma RunSafe(ss: seq<State>, steps: seq<Step>, i: nat)
    requires IsRun(ss, steps) && i < |ss|
    ensures var s := ss[i];
            && (forall g :: g in s.names <==> 1 <= g <= s.gen)
            && (forall g, h :: g in s.names && h in s.names && g != h ==> s.names[g] != s.names[h])
            && (forall x, g :: (x, g) in s.returned ==> g in s.names && s.names[g] == x)
            && (forall x, y :: x in s.open && y in s.open ==> x == y)
            && (forall x, y :: x in s.openConns && y in s.openConns ==> x == y)
            && (forall c: nat :: WritePhase(s.At(c)) ==>
                  s.readers == {} && forall d: nat :: WritePhase(s.At(d)) || ReadPhase(s.At(d)) ==> d == c)
  {
    RunInv(ss, steps, i);
    var s := ss[i];
    if s.writer.Some? {
      assert CallerOk(s, s.writer.value);
    }
    forall c: nat | WritePhase(s.At(c))
      ensures s.readers == {} && forall d: nat :: WritePhase(s.At(d)) || ReadPhase(s.At(d)) ==> d == c
    {
      assert CallerOk(s, c);
      forall d: nat | WritePhase(s.At(d)) || ReadPhase(s.At(d))
        ensures d == c
      {
        assert CallerOk(s, d);
      }
    }
  }

  /** What a call hands out, and when: a session that is installed and open under the
      lock, with its generation, or the one just made, which nobody had before, as
      the next generation. Nothing else hands out anything. */
  lemma HandsOut(ss: seq<State>, steps: seq<Step>, i: nat)
    requires IsRun(ss, steps) && i < |steps|
    ensures var s, s', step := ss[i], ss[i + 1], steps[i];
            if step.FastReturn? || step.SlowReturn? then
              && s.session.Some? && s.session.value in s.open
              && s'.returned == s.returned + [(s.session.value, s.gen)]
            else if step.Install? then
              && s'.session.Some? && s'.returned == s.returned + [(s'.session.value, s.gen + 1)]
              && forall p :: p in s.returned ==> p.0 != s'.session.value
            else s'.returned == s.returned
  {
    RunInv(ss, steps, i);
    var s, step := ss[i], steps[i];
    assert Enabled(s, step) && ss[i + 1] == Apply(s, step);
    if Actor(step).Some? {
      assert CallerOk(s, step.c);
    }
  }

  /** Nobody gives up on a session that is installed and open: a caller goes on to the
      write lock, and a writer to make a new session, only when there is none. */
  lemma OnlyMissesGoOn(ss: seq<State>, steps: seq<Step>, i: nat)
    requires IsRun(ss, steps) && i < |steps| && (steps[i].FastMiss? || steps[i].CloseOld?)
    ensures ss[i].session.Some? ==> ss[i].session.value !in ss[i].open
  {
    RunInv(ss, steps, i);
    assert Enabled(ss[i], steps[i]) && CallerOk(ss[i], steps[i].c);
  }

  /** When no session can be established the call is over: the lock is free, nothing is
      installed or open, and generations and names are as before. */
  lemma FailureEndsCall(ss: seq<State>, steps: seq<Step>, i: nat)
    requires IsRun(ss, steps) && i < |steps| && steps[i].EstablishFails?
    ensures ss[i + 1].At(steps[i].c) == Idle && ss[i + 1].writer == None && ss[i + 1].readers == {}
    ensures ss[i + 1].session == None && ss[i + 1].open == {}
    ensures ss[i + 1].bepConn == None && ss[i + 1].openConns == {}
    ensures ss[i + 1].gen == ss[i].gen && ss[i + 1].names == ss[i].names
  {
    RunInv(ss, steps, i);
    assert Enabled(ss[i], steps[i]) && ss[i + 1] == Apply(ss[i], steps[i]);
    assert CallerOk(ss[i], steps[i].c);
  }

  /** A session that has been made, and is neither installed nor about to be. */
  predicate Retired(s: State, x: nat) {
    x < s.made && s.session != Some(x) && x !in InHand(s)
  }

  /** What was handed out between two moments does not include `x`. */
  ghost predicate NotHandedSince(before: seq<(nat, nat)>, after: seq<(nat, nat)>, x: nat) {
    before <= after && forall k :: |before| <= k < |after| ==> after[k].0 != x
  }

  lemma StepRetired(s: State, step: Step, x: nat)
    requires Inv(s) && Enabled(s, step) && Retired(s, x)
    ensures Retired(Apply(s, step), x)
  {
    if Actor(step).Some? {
      assert CallerOk(s, step.c);
    }
    if s.writer.Some? {
      assert CallerOk(s, s.writer.value);
    }
  }

  lemma {:induction false} RetiredStays(ss: seq<State>, steps: seq<Step>, i: nat, j: nat, x: nat)
    requires IsRun(ss, steps) && i <= j < |ss| && Retired(ss[i], x)
    ensures Retired(ss[j], x) && NotHandedSince(ss[i].returned, ss[j].returned, x)
  {
    if i < j {
      hide Inv;
      hide Apply;
      hide Enabled;
      hide Retired;
      RetiredStays(ss, steps, i, j - 1, x);
      RunInv(ss, steps, j - 1);
      StepRetired(ss[j - 1], steps[j - 1], x);
      RetiredNotHanded(ss, steps, j - 1, x);
    }
  }

  lemma RetiredNotHanded(ss: seq<State>, steps: seq<Step>, i: nat, x: nat)
    requires IsRun(ss, steps) && i < |steps| && Retired(ss[i], x) && Retired(ss[i + 1], x)
    ensures NotHandedSince(ss[i].returned, ss[i + 1].returned, x)
  {
    HandsOut(ss, steps, i);
  }

  /** Invalidating a generation does end it: no session is left installed or open, and
      from then on the one that the generation named is never handed out again. */
  lemma InvalidateEnds(ss: seq<State>, steps: seq<Step>, i: nat, j: nat)
    requires IsRun(ss, steps) && i < j < |ss| && steps[i].Invalidate?
    ensures ss[i + 1].session == None && ss[i + 1].open == {}
    ensures ss[i + 1].bepConn == None && ss[i + 1].openConns == {}
    ensures ss[i].At(steps[i].c) == Matching(ss[i].gen)
    ensures ss[i].gen in ss[i].names ==> NotHandedSince(ss[i].returned, ss[j].returned, ss[i].names[ss[i].gen])
  {
    var s, step := ss[i], steps[i];
    RunInv(ss, steps, i);
    assert Enabled(s, step) && ss[i + 1] == Apply(s, step);
    assert CallerOk(s, step.c);
    HandsOut(ss, steps, i);
    if s.gen in s.names {
      RetiredStays(ss, steps, i + 1, j, s.names[s.gen]);
    }
  }

  /** What a caller that is not kept waiting by a lock can always do. */
  function Ready(s: State, c: nat): Step {
    match s.At(c)
    case Idle => StartGet(c)
    case WantRead => LockRead(c)
    case Snapshot => Snap(c)
    case FastCheck(session, _) => if session.Some? && session.value in s.open then FastReturn(c) else FastMiss(c)
    case WantWrite => LockWrite(c)
    case Recheck => if s.Live() then SlowReturn(c) else CloseOld(c)
    case DropConn => CloseOldConn(c)
    case Establishing => EstablishOk(c)
    case Installing(_) => Install(c)
    case WantInvalidate(_) => LockInvalidate(c)
    case Matching(target) => if s.gen == target then Invalidate(c) else Mismatch(c)
  }

  /** Steps that bring a call nearer to its end. */
  predicate Progresses(step: Step) {
    !step.OutsideClose? && !step.StartGet? && !step.StartInvalidate?
  }

  /** The locks never block for good: while some caller is in a call, some call can
      go on. */
  lemma NeverStuck(ss: seq<State>, steps: seq<Step>, i: nat, c: nat) returns (step: Step)
    requires IsRun(ss, steps) && i < |ss| && ss[i].At(c) != Idle
    ensures Enabled(ss[i], step) && Progresses(step)
  {
    RunInv(ss, steps, i);
    var s := ss[i];
    var d := c;
    assert CallerOk(s, c);
    if s.writer.Some? {
      d := s.writer.value;
    } else if s.readers != {} {
      d :| d in s.readers;
    }
    assert CallerOk(s, d);
    step := Ready(s, d);
  }

  /** The client ends a live session in one way only: by invalidating the very
      generation that names it. Looking for a session, or invalidating another
      generation, never does. */
  lemma LiveSessionsEnd(ss: seq<State>, steps: seq<Step>, i: nat, x: nat)
    requires IsRun(ss, steps) && i < |steps| && x in ss[i].open && x !in ss[i + 1].open
    ensures || steps[i] == OutsideClose(x)
            || (&& steps[i].Invalidate?
                && ss[i].At(steps[i].c).Matching?
                && var g := ss[i].At(steps[i].c).target; g in ss[i].names && ss[i].names[g] == x)
  {
    RunInv(ss, steps, i);
    var s, step := ss[i], steps[i];
    assert Enabled(s, step) && ss[i + 1] == Apply(s, step);
    if Actor(step).Some? {
      assert CallerOk(s, step.c);
    }
  }

  /** Every generation of `s` has the same name in `t`. */
  ghost predicate NamesKept(s: State, t: State) {
    forall g :: g in s.names ==> g in t.names && t.names[g] == s.names[g]
  }

  lemma KeptThrough(s: State, t: State, u: State)
    requires NamesKept(s, t) && NamesKept(t, u)
    ensures NamesKept(s, u)
  {
  }

  /** Generations and their names only grow, by one with every session that is
      installed and otherwise not at all. */
  lemma {:induction false} GenerationsGrow(ss: seq<State>, steps: seq<Step>, i: nat, j: nat)
    requires IsRun(ss, steps) && i <= j < |ss|
    ensures ss[j].gen == ss[i].gen + Installs(steps[i..j])
    ensures NamesKept(ss[i], ss[j])
  {
    InstallsSnoc([], StartGet(0));
    if i == j {
      assert steps[i..j] == [];
    } else {
      hide Installs;
      hide NamesKept;
      hide Inv;
      hide Apply;
      hide Enabled;
      var step := steps[j - 1];
      GenerationsGrow(ss, steps, i, j - 1);
      RunInv(ss, steps, j - 1);
      StepGrows(ss[j - 1], step);
      KeptThrough(ss[i], ss[j - 1], ss[j]);
      InstallsSnoc(steps[i..j - 1], step);
      assert steps[i..j] == steps[i..j - 1] + [step];
    }
  }

  lemma InstallsSnoc(steps: seq<Step>, step: Step)
    ensures Installs([]) == 0
    ensures Installs(steps + [step]) == Installs(steps) + if step.Install? then 1 else 0
  {
    assert (steps + [step])[..|steps|] == steps;
  }

  lemma StepGrows(s: State, step: Step)
    requires Inv(s) && Enabled(s, step)
    ensures Apply(s, step).gen == s.gen + if step.Install? then 1 else 0
    ensures NamesKept(s, Apply(s, step))
  {
  }

  function Installs(steps: seq<Step>): nat {
    if steps == [] then 0
    else Installs(steps[..|steps| - 1]) + if steps[|steps| - 1].Install? then 1 else 0
  }
}
