/** The server's side of a relay session: the ID it advertises and its message
    loop (generateDeviceIDWithHint and runSession in server.go), on top of the
    wire format. */
module ServerSession {
  import opened Numerals
  import opened Text
  import opened ByteStreams
  import opened Wire
  import Base63
  import DeviceId
  import Handshake
  import HintAddress
  import RelayHint
  import Xdr

  const MSG_PONG: int32 := 1
  const MSG_RELAY_FULL: int32 := 7

  const PONG := Message(MSG_PONG, [])

  /** The ID with a hint, when the address of the relay could be parsed. */
  function Advertised(raw: Bytes, relay: Option<(Bytes, int)>): string {
    match relay
    case None => Base63.Base63(raw)
    case Some((ip, port)) => RelayHint.Join(Base63.Base63(raw), ip, port)
  }

  /** A client reads the advertised ID as the server's own exactly when the packed
      address fits its hint; otherwise it rejects the whole ID. When it fits, the
      client also finds the relay the server joined. */
  lemma AdvertisedReads(raw: Bytes, relay: Option<(Bytes, int)>)
    requires |raw| == 32
    ensures if Fits(relay) then DeviceId.Parse(Advertised(raw, relay)) == Success(raw)
            else DeviceId.Parse(Advertised(raw, relay)).Failure?
    ensures relay.Some? && Fits(relay) ==>
              RelayHint.Split(Advertised(raw, relay)) ==
              RelayHint.Restored(Base63.Base63(raw), relay.value.0, relay.value.1)
  {
    hide DeviceId.Parse;
    hide RelayHint.Join;
    hide RelayHint.Split;
    hide RelayHint.FitsCompact;
    var sp := Hint(relay);
    DeviceId.SpellingsParse(raw, sp);
    DeviceId.SpellingsSplit(raw, sp);
    assert Advertised(raw, relay) == DeviceId.Write(raw, sp);
    if !Fits(relay) {
      DeviceId.OverflowRejected(raw, sp.ip, sp.port);
    }
  }

  /** The relay that clients find is, byte for byte, the address and port to which the
      server's relay URI resolved. */
  lemma AdvertisedNamesRelay(raw: Bytes, v4: Bytes, port: int)
    requires |raw| == 32 && |v4| == 4 && HintAddress.V4Number(v4, port) < 248155780267521
    ensures RelayHint.Split(Advertised(raw, Some((HintAddress.Mapped(v4), port)))) ==
            RelayHint.Hinted(Base63.Base63(raw), v4, port % 0x1_0000, true)
  {
    hide RelayHint.Split;
    hide RelayHint.Join;
    Base63.DecodeEncode(raw);
    HintAddress.V4OnCompact(Base63.Base63(raw), v4, port);
  }

  lemma AdvertisedNamesV6Relay(raw: Bytes, ip: Bytes, port: int)
    requires |raw| == 32 && |ip| == 16 && ip[..12] != [0, 0, 0, 0, 0, 0, 0, 0, 0, 0, 255, 255]
    ensures RelayHint.Split(Advertised(raw, Some((ip, port)))) ==
            RelayHint.Hinted(Base63.Base63(raw), ip, port % 0x1_0000, true)
  {
    hide RelayHint.Split;
    hide RelayHint.Join;
    Base63.DecodeEncode(raw);
    HintAddress.V6OnCompact(Base63.Base63(raw), ip, port);
  }

  /** The packed address fits the hint. */
  predicate Fits(relay: Option<(Bytes, int)>) {
    relay.Some? ==> RelayHint.FitsCompact(RelayHint.Pack(relay.value.0, relay.value.1))
  }

  function Hint(relay: Option<(Bytes, int)>): DeviceId.Spelling {
    match relay
    case None => DeviceId.Compact
    case Some((ip, port)) => DeviceId.CompactHint(ip, port)
  }

  /** The invitations among some messages, in order; one that does not decode is
      passed over. */
  function Invitations(ms: seq<Message>): seq<Xdr.Invitation> {
    if ms == [] then []
    else
      var m := ms[|ms| - 1];
      Invitations(ms[..|ms| - 1]) +
      if m.msgType == Handshake.MSG_SESSION_INVITATION && Xdr.Decode(m.body).Success?
      then [Xdr.Decode(m.body).value] else []
  }

  lemma NoInvitations()
    ensures Invitations([]) == []
  {
  }

  lemma InvitationsSnoc(ms: seq<Message>, m: Message)
    ensures Invitations(ms + [m]) ==
              Invitations(ms) +
              if m.msgType == Handshake.MSG_SESSION_INVITATION && Xdr.Decode(m.body).Success?
              then [Xdr.Decode(m.body).value] else []
    ensures Handshake.Pings(ms + [m]) == Handshake.Pings(ms) + if m.msgType == Handshake.MSG_PING then 1 else 0
  {
    assert (ms + [m])[..|ms|] == ms;
  }

  predicate NoneFull(ms: seq<Message>) {
    forall i :: 0 <= i < |ms| ==> ms[i].msgType != MSG_RELAY_FULL
  }

  lemma NoneFullSnoc(ms: seq<Message>, m: Message)
    requires NoneFull(ms)
    ensures NoneFull([])
    ensures NoneFull(ms + [m]) <==> m.msgType != MSG_RELAY_FULL
    ensures (ms + [m])[..|ms + [m]| - 1] == ms
  {
    assert (ms + [m])[|ms|] == m;
    assert forall i :: 0 <= i < |ms| ==> (ms + [m])[i] == ms[i];
  }

  datatype Ending = ContextDone | ReadFailed(error: ReadError) | RelayFull

  function Pongs(n: nat): seq<Message> {
    if n == 0 then [] else Pongs(n - 1) + [PONG]
  }

  /** A Pong on the wire, byte by byte. */
  lemma PongBytes()
    ensures Frames(Pongs(1)) == [0x9E, 0x79, 0xBC, 0x40, 0, 0, 0, 1, 0, 0, 0, 0]
  {
    hide ToBytes;
    FourBytes(0x9E79BC40);
    SmallWord(1);
    SmallWord(0);
    assert U32(RELAY_MAGIC) == [0x9E, 0x79, 0xBC, 0x40];
    FramesSnoc([], PONG);
    assert Pongs(0) == [] && [] + [PONG] == [PONG] == Pongs(1);
    assert Frames([]) == [];
    assert Frame(PONG) == [0x9E, 0x79, 0xBC, 0x40, 0, 0, 0, 1, 0, 0, 0, 0];
  }

  lemma {:induction false} FramesSnoc(ms: seq<Message>, m: Message)
    ensures Frames(ms + [m]) == Frames(ms) + Frame(m)
  {
    hide Frame;
    if ms == [] {
      assert [] + [m] == [m] && [m][1..] == [];
      assert Frames([m]) == Frame(m) + Frames([]) == Frame(m);
    } else {
      FramesSnoc(ms[1..], m);
      assert (ms + [m])[1..] == ms[1..] + [m];
    }
  }

  /** `handled` are the messages in front of `s` among those of `all`. */
  ghost predicate ReadsOn(all: Bytes, end: StreamEnd, handled: seq<Message>, s: Bytes) {
    ReadAll(all, end) == (handled + ReadAll(s, end).0, ReadAll(s, end).1)
  }

  lemma ReadsStart(all: Bytes, end: StreamEnd)
    ensures ReadsOn(all, end, [], all)
  {
    assert [] + ReadAll(all, end).0 == ReadAll(all, end).0;
  }

  lemma ReadsNext(all: Bytes, end: StreamEnd, handled: seq<Message>, s: Bytes)
    requires ReadsOn(all, end, handled, s)
    ensures handled <= ReadAll(all, end).0
    ensures var r := ReadOne(s, end);
            if r.0.Got? then ReadsOn(all, end, handled + [r.0.m], r.1) else ReadAll(all, end) == (handled, r.0.error)
  {
    hide ReadOne;
    var r := ReadOne(s, end);
    if r.0.Got? {
      var rest := ReadAll(r.1, end).0;
      assert handled + ([r.0.m] + rest) == (handled + [r.0.m]) + rest;
    } else {
      assert handled + [] == handled;
    }
  }

  lemma PongSent(sent: Bytes, handled: seq<Message>, m: Message)
    ensures sent + Frames(Pongs(Handshake.Pings([]))) == sent
    ensures sent + Frames(Pongs(Handshake.Pings(handled + [m]))) ==
            sent + Frames(Pongs(Handshake.Pings(handled))) + if m.msgType == Handshake.MSG_PING then Frame(PONG) else []
  {
    hide Frame;
    InvitationsSnoc(handled, m);
    FramesSnoc(Pongs(Handshake.Pings(handled)), PONG);
  }

  /** The loop handles a prefix of the messages that the bytes hold: all of them
      up to the read error, those up to the first RelayFull, or fewer when the
      context ends. A tunnel is started for exactly the invitations in that
      prefix, in order, and each Ping is answered with one Pong; with no write
      error the Pongs are all that is sent. */
  method RunSession(src: Source, w: Sink, pools: Pools)
    returns (tunnels: seq<Xdr.Invitation>, ending: Ending, ghost handled: seq<Message>, ghost allSent: bool)
    requires pools.Valid() && w.honest && !w.closed
    modifies src, w`written, pools.header`free, pools.small`free, pools.large`free
    modifies pools.header.free, pools.small.free, pools.large.free
    ensures handled <= ReadAll(old(src.pending), src.end).0
    ensures tunnels == Invitations(handled)
    ensures allSent ==> w.written == old(w.written) + Frames(Pongs(Handshake.Pings(handled)))
    ensures match ending
            case ContextDone => NoneFull(handled)
            case ReadFailed(e) => NoneFull(handled) && (handled, e) == ReadAll(old(src.pending), src.end)
            case RelayFull => handled != [] && handled[|handled| - 1].msgType == 7 &&
                              NoneFull(handled[..|handled| - 1])
  {
    hide NoneFull;
    hide Invitations;
    hide ReadAll;
    hide ReadOne;
    hide ReadsOn;
    hide Frame;
    hide Frames;
    hide Pongs;
    hide Handshake.Pings;
    hide Xdr.Decode;
    tunnels, handled, allSent := [], [], true;
    ReadsStart(src.pending, src.end);
    NoneFullSnoc([], PONG);
    NoInvitations();
    PongSent(w.written, [], PONG);
    while true
      invariant pools.Valid() && Recycled(pools.header) && Recycled(pools.small) && Recycled(pools.large)
      invariant NoneFull(handled) && tunnels == Invitations(handled)
      invariant ReadsOn(old(src.pending), src.end, handled, src.pending)
      invariant allSent ==> w.written == old(w.written) + Frames(Pongs(Handshake.Pings(handled)))
      decreases |src.pending|
    {
      ReadsNext(old(src.pending), src.end, handled, src.pending);
      var done: bool := *;
      if done {
        return tunnels, ContextDone, handled, allSent;
      }
      var r := ReadMessage(src, pools);
      if r.Failed? {
        return tunnels, ReadFailed(r.error), handled, allSent;
      }
      var m := r.m;
      InvitationsSnoc(handled, m);
      NoneFullSnoc(handled, m);
      PongSent(old(w.written), handled, m);
      handled := handled + [m];
      if m.msgType == Handshake.MSG_PING {
        var ok := WriteMessage(w, pools, PONG);
        allSent := allSent && ok;
      } else if m.msgType == Handshake.MSG_SESSION_INVITATION {
        var inv := Xdr.DecodeInvitation(m.body);
        if inv.Success? {
          tunnels := tunnels + [inv.value];
        }
      } else if m.msgType == MSG_RELAY_FULL {
        ReadsNext(old(src.pending), src.end, handled, src.pending);
        return tunnels, RelayFull, handled, allSent;
      }
    }
  }

  /** The messages with which a relay announces these sessions. */
  function Announcements(invs: seq<Xdr.Invitation>): seq<Message> {
    seq(|invs|, i requires 0 <= i < |invs| => Message(Handshake.MSG_SESSION_INVITATION, Xdr.Encode(invs[i])))
  }

  /** Invitations a relay encodes, frames and sends are the tunnels that the
      server starts, whatever they hold. */
  lemma {:induction false} AnnouncedAreStarted(invs: seq<Xdr.Invitation>)
    requires forall i :: 0 <= i < |invs| ==> Xdr.Encodable(invs[i]) && |Xdr.Encode(invs[i])| <= MAX_MESSAGE_SIZE
    ensures ReadAll(Frames(Announcements(invs)), Eof) == (Announcements(invs), CleanEof)
    ensures Invitations(Announcements(invs)) == invs && NoneFull(Announcements(invs))
  {
    hide ReadAll;
    hide Frames;
    hide Xdr.Encode;
    hide Xdr.Decode;
    StreamReadsBack(Announcements(invs));
    if invs != [] {
      var front, last := invs[..|invs| - 1], invs[|invs| - 1];
      AnnouncedAreStarted(front);
      Xdr.DecodeEncode(last, []);
      assert Xdr.Encode(last) + [] == Xdr.Encode(last);
      var m := Message(Handshake.MSG_SESSION_INVITATION, Xdr.Encode(last));
      InvitationsSnoc(Announcements(front), m);
      assert Announcements(invs) == Announcements(front) + [m];
    }
  }
}
