/** The two copy loops of a tunnelled stream (pkg/network/copy.go). */
module Copy {
  import opened Numerals
  import opened ByteStreams

  /** Where a loop stands: about to read, about to write what it read, out of the
      loop, or past closing the write side. `ended` says the read also returned
      an error. */
  datatype Phase = Reading | Writing(chunk: Bytes, ended: bool) | Stopped | Closed

  datatype Flow = Flow(delivered: Bytes, received: Bytes, phase: Phase, writeFailed: bool)

  datatype Step = Read(chunk: Bytes, ended: bool) | Write(n: nat, ok: bool) | Close

  predicate Enabled(f: Flow, step: Step) {
    match step
    case Read(_, _) => f.phase.Reading?
    case Write(n, _) => f.phase.Writing? && n <= |f.phase.chunk|
    case Close => f.phase.Stopped?
  }

  function Apply(f: Flow, step: Step): Flow
    requires Enabled(f, step)
  {
    match step
    case Read(chunk, ended) =>
      var next := if |chunk| > 0 then Writing(chunk, ended) else if ended then Stopped else Reading;
      f.(delivered := f.delivered + chunk, phase := next)
    case Write(n, ok) =>
      var complete := ok && n == |f.phase.chunk|;
      var next := if complete && !f.phase.ended then Reading else Stopped;
      f.(received := f.received + f.phase.chunk[..n], phase := next, writeFailed := !complete)
    case Close => f.(phase := Closed)
  }

  const START := Flow([], [], Reading, false)

  /** The states a run of one loop goes through. */
  ghost predicate IsRun(fs: seq<Flow>, steps: seq<Step>) {
    |fs| == |steps| + 1 && fs[0] == START &&
    forall i :: 0 <= i < |steps| ==> Enabled(fs[i], steps[i]) && fs[i + 1] == Apply(fs[i], steps[i])
  }

  /** What is on its way through the buffer. */
  function InFlight(f: Flow): Bytes {
    if f.phase.Writing? then f.phase.chunk else []
  }

  predicate Faithful(f: Flow) {
    && f.received <= f.delivered
    && (!f.writeFailed ==> f.delivered == f.received + InFlight(f))
    && (f.writeFailed ==> f.phase.Stopped? || f.phase.Closed?)
    && (f.phase.Writing? ==> f.phase.chunk != [])
  }

  lemma StepFaithful(f: Flow, step: Step)
    requires Faithful(f) && Enabled(f, step)
    ensures Faithful(Apply(f, step))
  {
    match step
    case Read(chunk, ended) =>
    case Close =>
    case Write(n, ok) =>
      var chunk := f.phase.chunk;
      assert f.delivered == f.received + chunk == f.received + chunk[..n] + chunk[n..];
  }

  /** At every moment of every run: the destination has a prefix of what the
      source delivered; without a write failure only the chunk being written is
      missing, so a loop that stops has forwarded everything, also bytes that came
      together with the error; and once the write side is closed nothing follows. */
  lemma {:induction false} RunsFaithful(fs: seq<Flow>, steps: seq<Step>, i: nat)
    requires IsRun(fs, steps) && i < |fs|
    ensures Faithful(fs[i])
    ensures fs[i].phase.Closed? ==> i == |steps|
  {
    if i > 0 {
      RunsFaithful(fs, steps, i - 1);
      StepFaithful(fs[i - 1], steps[i - 1]);
    }
    if i < |steps| {
      assert Enabled(fs[i], steps[i]);
    }
  }

  /** The loop itself, into and out of a pooled buffer of any contents. Its states
      are those of a run, the write side is closed last, and without a write
      failure everything the source had is copied. */
  method CopyLoop(dst: Sink, src: Source, buf: array<Byte>)
    returns (writeFailed: bool, ghost fs: seq<Flow>, ghost steps: seq<Step>)
    requires buf.Length > 0 && !dst.closed && dst.written == [] && src.delivered == []
    modifies dst, src, buf
    ensures dst.closed
    ensures dst.written <= old(src.pending)
    ensures !writeFailed ==> dst.written == old(src.pending) && src.pending == []
    ensures IsRun(fs, steps)
    ensures fs[|steps|] == Flow(src.delivered, dst.written, Closed, writeFailed)
  {
    ghost var all := src.pending;
    fs, steps, writeFailed := [START], [], false;
    var ended := false;
    while !writeFailed && !ended
      invariant IsRun(fs, steps) && !dst.closed
      invariant src.delivered + src.pending == all
      invariant fs[|steps|] ==
                Flow(src.delivered, dst.written, if writeFailed || ended then Stopped else Reading, writeFailed)
      invariant dst.written <= src.delivered && (!writeFailed ==> dst.written == src.delivered)
      invariant ended && !writeFailed ==> src.pending == []
      decreases !writeFailed && !ended, |src.pending|, src.stalls
    {
      var nr, err := src.Read(buf, 0, buf.Length);
      ended := err.Some?;
      var chunk := buf[..nr];
      fs, steps := Extend(fs, steps, Read(chunk, ended));
      if nr > 0 {
        var nw, ok := dst.Write(chunk);
        fs, steps := Extend(fs, steps, Write(nw, ok));
        assert chunk[..|chunk|] == chunk;
        if !ok || nw < nr {
          writeFailed := true;
        }
      }
    }
    dst.CloseWrite();
    fs, steps := Extend(fs, steps, Close);
  }

  ghost method Extend(fs: seq<Flow>, steps: seq<Step>, step: Step) returns (fs': seq<Flow>, steps': seq<Step>)
    requires IsRun(fs, steps) && Enabled(fs[|steps|], step)
    ensures IsRun(fs', steps') && steps' == steps + [step]
    ensures fs'[|steps'|] == Apply(fs[|steps|], step)
  {
    fs', steps' := fs + [Apply(fs[|steps|], step)], steps + [step];
  }
}
