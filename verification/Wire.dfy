/** Relay message framing (pkg/protocol/wire.go). */
module Wire {
  import opened Numerals
  import opened ByteStreams

  const RELAY_MAGIC: nat := 0x9E79BC40
  const MAX_MESSAGE_SIZE: nat := 4 * 1024 * 1024

  type int32 = t: int | -0x8000_0000 <= t < 0x8000_0000

  datatype Message = Message(msgType: int32, body: Bytes)

  function U32(v: int): (b: Bytes)
    ensures |b| == 4
  {
    ToBytes(v % 0x1_0000_0000, 4)
  }

  function Word(b: Bytes): nat {
    Value(b, 256)
  }

  /** The int32 with the bits of a uint32. */
  function AsInt32(v: nat): int32
    requires v < 0x1_0000_0000
  {
    if v < 0x8000_0000 then v else v - 0x1_0000_0000
  }

  lemma WordOfU32(v: int)
    ensures Word(U32(v)) == v % 0x1_0000_0000
  {
    var w, four: nat := v % 0x1_0000_0000, 4;
    assert Pow(256, four) == 0x1_0000_0000;
    ValueOfDigits(w, 256, four);
  }

  lemma FourBytePower()
    ensures Pow(256, 4) == 0x1_0000_0000
  {
  }

  lemma WordBound(b: Bytes)
    requires |b| == 4
    ensures Word(b) < 0x1_0000_0000
    ensures U32(Word(b)) == b
  {
    hide Value;
    hide Digits;
    FourBytePower();
    ValueBound(b, 256);
    DigitsOfValue(b, 256);
  }

  /** binary.BigEndian.PutUint32. */
  method PutU32(buf: array<Byte>, at: nat, v: int)
    requires at + 4 <= buf.Length
    modifies buf
    ensures buf[..] == old(buf[..at]) + U32(v) + old(buf[at + 4..])
  {
    var w := v % 0x1_0000_0000;
    buf[at] := w / 0x100_0000 % 256;
    buf[at + 1] := w / 0x1_0000 % 256;
    buf[at + 2] := w / 0x100 % 256;
    buf[at + 3] := w % 256;
    FourBytes(w);
  }

  lemma FourBytes(w: nat)
    ensures ToBytes(w, 4) == [w / 0x100_0000 % 256, w / 0x1_0000 % 256, w / 0x100 % 256, w % 256]
  {
    assert Digits(w, 256, 4) == Digits(w / 256, 256, 3) + [w % 256];
    assert Digits(w / 256, 256, 3) == Digits(w / 256 / 256, 256, 2) + [w / 256 % 256];
    assert Digits(w / 256 / 256, 256, 2) == [w / 256 / 256 / 256 % 256, w / 256 / 256 % 256];
  }

  lemma SmallWord(w: nat)
    requires w < 0x1_0000
    ensures U32(w) == [0, 0, w / 0x100, w % 0x100]
  {
    hide ToBytes;
    FourBytes(w);
    assert w % 0x1_0000_0000 == w && w / 0x100_0000 == 0 && w / 0x1_0000 == 0 && w / 0x100 < 256;
  }

  function Header(msgType: int32, length: nat): (h: Bytes)
    ensures |h| == 12
  {
    U32(RELAY_MAGIC) + U32(msgType) + U32(length)
  }

  /** The bytes of one message on the wire. */
  function Frame(m: Message): Bytes {
    Header(m.msgType, |m.body|) + m.body
  }

  class Pools {
    const header: Pool
    const small: Pool
    const large: Pool

    ghost predicate Valid()
      reads this, header, small, large
    {
      header.Valid() && small.Valid() && large.Valid() &&
      header != small && small != large && header != large &&
      header.size == 12 && small.size == 128 && large.size == MAX_MESSAGE_SIZE
    }

    constructor ()
      ensures Valid() && fresh(header) && fresh(small) && fresh(large)
    {
      header := new Pool(12);
      small := new Pool(128);
      large := new Pool(MAX_MESSAGE_SIZE);
    }
  }

  /** Pools only ever hold buffers they held before or new ones. */
  twostate predicate Recycled(pool: Pool)
    reads pool
  {
    forall i :: 0 <= i < |pool.free| ==> pool.free[i] in old(pool.free) || fresh(pool.free[i])
  }

  method PutHeader(buf: array<Byte>, m: Message)
    requires buf.Length >= 12
    modifies buf
    ensures buf[..12] == Header(m.msgType, |m.body|)
  {
    hide Digits;
    hide ToBytes;
    hide U32;
    PutU32(buf, 0, RELAY_MAGIC);
    PutU32(buf, 4, m.msgType);
    PutU32(buf, 8, |m.body|);
    assert buf[..12] == buf[..4] + buf[4..8] + buf[8..12];
  }

  /** `after` is `before` with some of `data` appended, all of it when `ok`. */
  ghost predicate Sent(before: Bytes, after: Bytes, data: Bytes, ok: bool) {
    (ok ==> after == before + data) && exists n :: 0 <= n <= |data| && after == before + data[..n]
  }

  /** Whatever the pooled buffers held before, an error-free write sends exactly
      the frame, and a failed one a prefix of it. */
  method WriteMessage(w: Sink, pools: Pools, m: Message) returns (ok: bool)
    requires pools.Valid() && w.honest && !w.closed
    modifies w`written, pools.small`free, pools.header`free, pools.small.free, pools.header.free
    ensures pools.Valid() && Recycled(pools.header) && Recycled(pools.small)
    ensures Sent(old(w.written), w.written, Frame(m), ok)
  {
    var totalLen := 12 + |m.body|;
    if totalLen <= 128 {
      var buf := pools.small.Get();
      PutHeader(buf, m);
      if |m.body| > 0 {
        CopyInto(buf, 12, m.body);
      }
      assert buf[..totalLen] == Frame(m);
      ok := WriteBuffers(w, buf[..totalLen], []);
      pools.small.Put(buf);
      assert Frame(m) + [] == Frame(m);
    } else {
      var header := pools.header.Get();
      PutHeader(header, m);
      assert header[..] == header[..12] && header[..] + m.body == Frame(m);
      ok := WriteBuffers(w, header[..], m.body);
      pools.header.Put(header);
    }
  }

  /** One buffer, then another unless it is empty: net.Buffers.WriteTo on a
      connection, and the same two Write calls on any other writer. On the latter
      the code puts the header buffer back between the two calls, here it is put
      back after both; the body is not in it. */
  method WriteBuffers(w: Sink, first: Bytes, second: Bytes) returns (ok: bool)
    requires w.honest && !w.closed
    modifies w`written
    ensures Sent(old(w.written), w.written, first + second, ok)
  {
    var n;
    n, ok := w.Write(first);
    assert first[..n] == (first + second)[..n];
    if ok && |second| > 0 {
      var k;
      k, ok := w.Write(second);
      assert (first + second)[..|first| + k] == first + second[..k];
      assert second[..|second|] == second;
    }
    assert first[..|first|] == first;
  }

  method CopyInto(buf: array<Byte>, at: nat, b: Bytes)
    requires at + |b| <= buf.Length
    modifies buf
    ensures buf[..] == old(buf[..at]) + b + old(buf[at + |b|..])
  {
    forall i | 0 <= i < |b| {
      buf[at + i] := b[i];
    }
  }

  datatype ReadError = CleanEof | UnexpectedEof | StreamBroken | BadMagic | TooLarge

  datatype Reading = Got(m: Message) | Failed(error: ReadError)

  /** The error io.ReadFull reports after `read` bytes of too few. */
  function ShortError(end: StreamEnd, read: nat): ReadError {
    match end
    case Broken => StreamBroken
    case Eof => if read == 0 then CleanEof else UnexpectedEof
  }

  /** What reading one message from these bytes yields, and what it leaves. */
  function ReadOne(s: Bytes, end: StreamEnd): (r: (Reading, Bytes))
    ensures |r.1| <= |s|
    ensures r.0.Got? ==> |r.1| < |s|
  {
    if |s| < 12 then (Failed(ShortError(end, |s|)), [])
    else if Word(s[..4]) != RELAY_MAGIC then (Failed(BadMagic), s[12..])
    else
      WordBound(s[4..8]);
      var length := Word(s[8..12]);
      if length > MAX_MESSAGE_SIZE then (Failed(TooLarge), s[12..])
      else if |s| - 12 < length then (Failed(ShortError(end, |s| - 12)), [])
      else (Got(Message(AsInt32(Word(s[4..8])), s[12..12 + length])), s[12 + length..])
  }

  lemma ReadOneCases(s: Bytes, end: StreamEnd)
    ensures |s| < 12 ==> ReadOne(s, end) == (Failed(ShortError(end, |s|)), [])
    ensures |s| >= 12 && Word(s[..4]) != RELAY_MAGIC ==> ReadOne(s, end) == (Failed(BadMagic), s[12..])
    ensures |s| >= 12 && Word(s[..4]) == RELAY_MAGIC ==>
              (WordBound(s[4..8]);
               var length, body := Word(s[8..12]), s[12..];
               ReadOne(s, end) ==
               if length > MAX_MESSAGE_SIZE then (Failed(TooLarge), body)
               else if |body| < length then (Failed(ShortError(end, |body|)), [])
               else (Got(Message(AsInt32(Word(s[4..8])), body[..length])), body[length..]))
  {
    hide Word;
    if |s| >= 12 {
      var length := Word(s[8..12]);
      if |s| - 12 >= length {
        assert s[12..][..length] == s[12..12 + length] && s[12..][length..] == s[12 + length..];
      }
    }
  }

  /** Reads into a pooled buffer, copies the bytes out of it, and puts it back. */
  method ReadPooled(src: Source, pool: Pool, want: nat) returns (got: ReadFullResult, bytes: Bytes)
    requires pool.Valid() && want <= pool.size
    modifies src, pool`free, pool.free
    ensures pool.Valid() && Recycled(pool)
    ensures if |old(src.pending)| >= want
            then got == Full && bytes == old(src.pending)[..want] && src.pending == old(src.pending)[want..]
            else got == Short(|old(src.pending)|) && src.pending == []
  {
    var buf := pool.Get();
    got := ReadFull(src, buf, want);
    bytes := if got.Full? then buf[..want] else [];
    pool.Put(buf);
  }

  /** However the source chops its bytes and whatever the pooled buffers held, the
      outcome depends on the bytes alone, and exactly the message is consumed. */
  method ReadMessage(src: Source, pools: Pools) returns (r: Reading)
    requires pools.Valid()
    modifies src, pools.header`free, pools.small`free, pools.large`free
    modifies pools.header.free, pools.small.free, pools.large.free
    ensures pools.Valid() && Recycled(pools.header) && Recycled(pools.small) && Recycled(pools.large)
    ensures (r, src.pending) == ReadOne(old(src.pending), src.end)
  {
    hide Word;
    hide ReadOne;
    ghost var s := src.pending;
    ReadOneCases(s, src.end);
    var header := pools.header.Get();
    var got := ReadFull(src, header, 12);
    if got.Short? {
      pools.header.Put(header);
      return Failed(ShortError(src.end, got.read));
    }
    assert header[..4] == s[..4] && header[4..8] == s[4..8] && header[8..12] == s[8..12];
    var magic := Word(header[..4]);
    if magic != RELAY_MAGIC {
      pools.header.Put(header);
      return Failed(BadMagic);
    }
    WordBound(header[4..8]);
    var msgType := AsInt32(Word(header[4..8]));
    var length := Word(header[8..12]);
    pools.header.Put(header);
    if length > MAX_MESSAGE_SIZE {
      return Failed(TooLarge);
    }
    assert src.pending == s[12..];
    var body: Bytes := [];
    if length > 0 {
      var pool := if length <= 128 then pools.small else pools.large;
      got, body := ReadPooled(src, pool, length);
      if got.Short? {
        return Failed(ShortError(src.end, got.read));
      }
    }
    r := Got(Message(msgType, body));
  }

  /** Whatever does not begin with the magic number is refused after its header. */
  lemma ForeignRejected(s: Bytes, end: StreamEnd)
    requires |s| >= 12
    ensures ReadOne(s, end) == (Failed(BadMagic), s[12..]) <==> s[..4] != [0x9E, 0x79, 0xBC, 0x40]
  {
    hide Word;
    hide ToBytes;
    FourBytes(0x9E79BC40);
    assert U32(RELAY_MAGIC) == [0x9E, 0x79, 0xBC, 0x40];
    WordOfU32(RELAY_MAGIC);
    WordBound(s[..4]);
  }

  /** The layout, byte by byte: the magic number, the type and the length, big-endian,
      and then the body. */
  lemma FrameLayout(body: Bytes)
    requires |body| < 0x1_0000
    ensures Frame(Message(6, body)) ==
            [0x9E, 0x79, 0xBC, 0x40] + [0, 0, 0, 6] + [0, 0, |body| / 0x100, |body| % 0x100] + body
  {
    hide ToBytes;
    FourBytes(0x9E79BC40);
    SmallWord(6);
    SmallWord(|body|);
    assert U32(RELAY_MAGIC) == [0x9E, 0x79, 0xBC, 0x40];
  }

  // A written message reads back

  lemma HeaderParts(msgType: int32, length: nat, tail: Bytes)
    ensures var s := Header(msgType, length) + tail;
            s[..4] == U32(RELAY_MAGIC) && s[4..8] == U32(msgType) && s[8..12] == U32(length) && s[12..] == tail
  {
  }

  lemma AsInt32Inverse(t: int32)
    ensures AsInt32(t % 0x1_0000_0000) == t
  {
  }

  /** What the reader makes of a frame that may be cut inside its body or be
      followed by more: the length field is the body length modulo 2^32. */
  lemma ReadAfterHeader(m: Message, tail: Bytes, end: StreamEnd)
    ensures var length := |m.body| % 0x1_0000_0000;
            ReadOne(Header(m.msgType, |m.body|) + tail, end) ==
              if length > MAX_MESSAGE_SIZE then (Failed(TooLarge), tail)
              else if |tail| < length then (Failed(ShortError(end, |tail|)), [])
              else (Got(Message(m.msgType, tail[..length])), tail[length..])
  {
    hide Value;
    hide Digits;
    var s := Header(m.msgType, |m.body|) + tail;
    HeaderParts(m.msgType, |m.body|, tail);
    WordOfU32(RELAY_MAGIC);
    WordOfU32(m.msgType);
    WordOfU32(|m.body|);
    AsInt32Inverse(m.msgType);
    var length := |m.body| % 0x1_0000_0000;
    if length <= |tail| {
      assert s[12..12 + length] == tail[..length] && s[12 + length..] == tail[length..];
    }
  }

  /** A frame reads back as its message exactly when the payload respects the
      limit, which the writer does not check. */
  lemma FrameReadsBack(m: Message, rest: Bytes, end: StreamEnd)
    ensures ReadOne(Frame(m) + rest, end) == (Got(m), rest) <==> |m.body| <= 4 * 1024 * 1024
  {
    hide ReadOne;
    hide Header;
    assert Frame(m) + rest == Header(m.msgType, |m.body|) + (m.body + rest);
    ReadAfterHeader(m, m.body + rest, end);
    if |m.body| <= MAX_MESSAGE_SIZE {
      assert (m.body + rest)[..|m.body|] == m.body && (m.body + rest)[|m.body|..] == rest;
    }
  }

  function Frames(ms: seq<Message>): Bytes {
    if ms == [] then [] else Frame(ms[0]) + Frames(ms[1..])
  }

  /** Reading until the first error. */
  function ReadAll(s: Bytes, end: StreamEnd): (seq<Message>, ReadError)
    decreases |s|
  {
    match ReadOne(s, end)
    case (Failed(e), _) => ([], e)
    case (Got(m), rest) => var (ms, e) := ReadAll(rest, end); ([m] + ms, e)
  }

  predicate WithinLimit(ms: seq<Message>) {
    forall i :: 0 <= i < |ms| ==> |ms[i].body| <= MAX_MESSAGE_SIZE
  }

  /** How many whole frames the first `k` bytes hold, and the bytes left over. */
  function Complete(ms: seq<Message>, k: nat): (nat, nat) {
    if ms == [] || k < |Frame(ms[0])| then (0, k)
    else var (n, left) := Complete(ms[1..], k - |Frame(ms[0])|); (n + 1, left)
  }

  /** Messages written one after the other are read back as the same list, and a
      stream cut after any byte gives exactly the complete messages. The error is
      a clean end when nothing, or just a header, is left over. */
  lemma {:induction false} CutStreamReads(ms: seq<Message>, k: nat, end: StreamEnd)
    requires WithinLimit(ms) && k <= |Frames(ms)|
    ensures var (n, left) := Complete(ms, k);
            && n <= |ms|
            && ReadAll(Frames(ms)[..k], end) == (ms[..n], ShortError(end, if left == 12 then 0 else left))
  {
    hide ReadOne;
    hide Header;
    if ms == [] {
      EmptyReads(end);
    } else if k < |Frame(ms[0])| {
      CutFrameReads(ms[0], k, end);
      assert Frames(ms)[..k] == Frame(ms[0])[..k];
    } else {
      var first, rest := Frame(ms[0]), Frames(ms[1..])[..k - |Frame(ms[0])|];
      assert Frames(ms)[..k] == first + rest;
      FrameReadsBack(ms[0], rest, end);
      CutStreamReads(ms[1..], k - |first|, end);
      var (n, _) := Complete(ms, k);
      assert ms[..n] == [ms[0]] + ms[1..][..n - 1];
    }
  }

  lemma EmptyReads(end: StreamEnd)
    ensures ReadOne([], end) == (Failed(ShortError(end, 0)), [])
  {
  }

  lemma CutFrameReads(m: Message, k: nat, end: StreamEnd)
    requires |m.body| <= MAX_MESSAGE_SIZE && k < |Frame(m)|
    ensures ReadOne(Frame(m)[..k], end) == (Failed(ShortError(end, if k == 12 then 0 else k)), [])
  {
    if k >= 12 {
      CutBodyReads(m, k, end);
    }
  }

  lemma CutBodyReads(m: Message, k: nat, end: StreamEnd)
    requires |m.body| <= MAX_MESSAGE_SIZE && 12 <= k < |Frame(m)|
    ensures ReadOne(Frame(m)[..k], end) == (Failed(ShortError(end, k - 12)), [])
  {
    hide ReadOne;
    hide Header;
    assert Frame(m)[..k] == Header(m.msgType, |m.body|) + m.body[..k - 12];
    ReadAfterHeader(m, m.body[..k - 12], end);
  }

  lemma StreamReadsBack(ms: seq<Message>)
    requires WithinLimit(ms)
    ensures ReadAll(Frames(ms), Eof) == (ms, CleanEof)
  {
    hide ReadAll;
    hide Frames;
    AllComplete(ms);
    CutStreamReads(ms, |Frames(ms)|, Eof);
    assert Frames(ms)[..|Frames(ms)|] == Frames(ms) && ms[..|ms|] == ms;
  }

  lemma {:induction false} AllComplete(ms: seq<Message>)
    ensures Complete(ms, |Frames(ms)|) == (|ms|, 0)
  {
    if ms != [] {
      AllComplete(ms[1..]);
    }
  }
}
