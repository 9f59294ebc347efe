/** io.Reader, io.Writer and sync.Pool as the wire and copy code may rely on
    them. Every choice the environment has is left open in the contracts. */
module ByteStreams {
  import opened Numerals
  import opened Text

  /** How a stream ends. */
  datatype StreamEnd = Eof | Broken

  /** A writer. An honest one keeps the io.Writer contract: fewer bytes only with an error. */
  class Sink {
    const honest: bool
    var written: Bytes
    var closed: bool

    constructor (honest: bool)
      ensures this.honest == honest && written == [] && !closed
    {
      this.honest, written, closed := honest, [], false;
    }

    method Write(b: Bytes) returns (n: nat, ok: bool)
      requires !closed
      modifies this`written
      ensures n <= |b| && written == old(written) + b[..n]
      ensures honest && ok ==> n == |b|
    {
      n :| n <= |b|;
      ok := *;
      if honest && n < |b| {
        ok := false;
      }
      written := written + b[..n];
    }

    method CloseWrite()
      modifies this`closed
      ensures closed
    {
      closed := true;
    }
  }

  /** A reader: `pending` is what it will still deliver, in chunks of any size,
      before it reports `end`. It may return nothing and no error `stalls` times. */
  class Source {
    const end: StreamEnd
    var pending: Bytes
    var stalls: nat
    ghost var delivered: Bytes

    constructor (bytes: Bytes, end: StreamEnd, stalls: nat)
      ensures this.end == end && pending == bytes && delivered == []
    {
      this.end, pending, this.stalls := end, bytes, stalls;
      delivered := [];
    }

    /** Reads into p[from..to]; the part it does not fill may be scribbled on. */
    method Read(p: array<Byte>, from: nat, to: nat) returns (n: nat, err: Option<StreamEnd>)
      requires from < to <= p.Length
      modifies this, p
      ensures n <= to - from && n <= |old(pending)|
      ensures pending == old(pending)[n..] && delivered == old(delivered) + old(pending)[..n]
      ensures p[..from] == old(p[..from]) && p[from..from + n] == old(pending)[..n] && p[to..] == old(p[to..])
      ensures err.Some? ==> err.value == end && pending == []
      ensures stalls <= old(stalls) && (n == 0 && err.None? ==> stalls < old(stalls))
    {
      n :| n <= to - from && n <= |pending|;
      forall i | 0 <= i < n {
        p[from + i] := pending[i];
      }
      delivered, pending := delivered + pending[..n], pending[n..];
      err := None;
      if pending == [] {
        var now: bool := *;
        if now {
          err := Some(end);
        }
      }
      if n == 0 && err.None? {
        if stalls > 0 {
          stalls := stalls - 1;
        } else {
          n, err := ForceProgress(p, from);
        }
      }
    }

    /** Out of stalls: one byte, or the end. */
    method ForceProgress(p: array<Byte>, from: nat) returns (n: nat, err: Option<StreamEnd>)
      requires from < p.Length
      modifies this, p
      ensures n <= 1 && n <= |old(pending)| && stalls == old(stalls)
      ensures pending == old(pending)[n..] && delivered == old(delivered) + old(pending)[..n]
      ensures forall i :: 0 <= i < p.Length && i != from ==> p[i] == old(p[i])
      ensures n == 1 ==> p[from] == old(pending)[0]
      ensures if n == 0 then err == Some(end) && pending == [] else err.None?
    {
      if pending == [] {
        return 0, Some(end);
      }
      p[from] := pending[0];
      delivered, pending := delivered + pending[..1], pending[1..];
      return 1, None;
    }
  }

  datatype ReadFullResult = Full | Short(read: nat)

  /** io.ReadFull into buf[..want]. */
  method ReadFull(src: Source, buf: array<Byte>, want: nat) returns (r: ReadFullResult)
    requires want <= buf.Length
    modifies src, buf
    ensures if |old(src.pending)| >= want
            then r == Full && buf[..want] == old(src.pending)[..want] && src.pending == old(src.pending)[want..]
            else r == Short(|old(src.pending)|) && src.pending == []
  {
    var n := 0;
    var err: Option<StreamEnd> := None;
    while n < want && err.None?
      invariant n <= want && n <= |old(src.pending)|
      invariant src.pending == old(src.pending)[n..] && buf[..n] == old(src.pending)[..n]
      invariant err.Some? ==> src.pending == []
      decreases want - n, src.stalls, err.None?
    {
      var nn: nat;
      nn, err := src.Read(buf, n, want);
      assert buf[..n + nn] == buf[..n] + buf[n..n + nn];
      n := n + nn;
    }
    r := if n >= want then Full else Short(n);
  }

  /** sync.Pool of buffers of one size. A buffer that has been put back may be
      overwritten by anyone at once. */
  class Pool {
    const size: nat
    var free: seq<array<Byte>>

    ghost predicate Valid()
      reads this
    {
      (forall i :: 0 <= i < |free| ==> free[i].Length == size) &&
      (forall i, j :: 0 <= i < j < |free| ==> free[i] != free[j])
    }

    constructor (size: nat)
      ensures Valid() && this.size == size && free == []
    {
      this.size, free := size, [];
    }

    method Get() returns (buf: array<Byte>)
      requires Valid()
      modifies this`free
      ensures Valid() && buf.Length == size && buf !in free
      ensures fresh(buf) || buf in old(free)
      ensures forall b :: b in free ==> b in old(free)
    {
      if free == [] {
        buf := new Byte[size](_ => 0);
      } else {
        buf, free := free[0], free[1..];
      }
    }

    method Put(buf: array<Byte>)
      requires Valid() && buf.Length == size && buf !in free
      modifies this`free, buf
      ensures Valid() && free == old(free) + [buf]
    {
      free := free + [buf];
    }
  }
}
