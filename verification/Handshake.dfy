/** The two separately written relay handshakes of the client:
    connectToRelay with connectToKnownRelay, and tryRelayAndConnect (client.go). */
module Handshake {
  import opened Numerals
  import opened Text
  import opened Wire
  import Xdr
  import RelayHint

  const MSG_PING: int32 := 0
  const MSG_RESPONSE: int32 := 4
  const MSG_SESSION_INVITATION: int32 := 6

  /** Everything outside the client's control: whether its writes and dials
      succeed, whether the relay's certificate passes the known-relay check, and
      the messages that arrive before the connection fails. */
  datatype World = World(
    dialed: bool, certOk: bool, joinSent: bool, relay: seq<Message>, requestSent: bool,
    sessionDialed: bool, sessionSent: bool, reply: Option<Message>)

  datatype Reason =
    | DialFailed | BadCertificate | JoinNotSent | ConnectionLost | BadJoinReply | JoinRejected
    | RequestNotSent | TargetRejected | BadInvitation | UnexpectedMessage
    | SessionDialFailed | SessionNotSent | SessionLost | BadSessionReply | SessionRejected

  /** The session endpoint: the invited address, or (None) the relay's own host. */
  datatype Endpoint = Endpoint(address: Option<Bytes>, port: nat)

  datatype Verdict = Joined(key: Bytes, at: Endpoint) | GaveUp(reason: Reason)

  datatype Outcome = Outcome(verdict: Verdict, pongs: nat)

  /** A Response long enough to hold a code, with a nonzero one. */
  predicate Rejects(body: Bytes) {
    |body| >= 4 && Word(body[..4]) != 0
  }

  /** net.IP.IsUnspecified. */
  predicate IsUnspecified(ip: Bytes) {
    RelayHint.To4(ip) == Some(Zeros(4)) || ip == Zeros(16)
  }

  function SessionEndpoint(inv: Xdr.Invitation): Endpoint {
    if |inv.address| > 0 && !IsUnspecified(inv.address)
    then Endpoint(Some(inv.address), inv.port)
    else Endpoint(None, inv.port)
  }

  /** After the choice of an invitation: dial, send the key, await the reply. */
  function JoinSession(world: World, inv: Xdr.Invitation): Verdict {
    if !world.sessionDialed then GaveUp(SessionDialFailed)
    else if !world.sessionSent then GaveUp(SessionNotSent)
    else match world.reply
      case None => GaveUp(SessionLost)
      case Some(m) =>
        if m.msgType != MSG_RESPONSE then GaveUp(BadSessionReply)
        else if Rejects(m.body) then GaveUp(SessionRejected)
        else Joined(inv.key, SessionEndpoint(inv))
  }

  /** An invitation that decodes and comes from the target. */
  predicate Invites(m: Message, target: Bytes) {
    m.msgType == MSG_SESSION_INVITATION && Xdr.Decode(m.body).Success? && Xdr.Decode(m.body).value.from == target
  }

  /** Messages the wait for an invitation passes over. */
  predicate Skipped(m: Message, target: Bytes) {
    || m.msgType == MSG_PING
    || (m.msgType == MSG_RESPONSE && !Rejects(m.body))
    || (m.msgType == MSG_SESSION_INVITATION && Xdr.Decode(m.body).Success? && Xdr.Decode(m.body).value.from != target)
  }

  /** Why a message that is neither skipped nor inviting ends the wait. */
  function Fatal(m: Message): Reason {
    if m.msgType == MSG_RESPONSE then TargetRejected
    else if m.msgType == MSG_SESSION_INVITATION then BadInvitation
    else UnexpectedMessage
  }

  /** The position of the first message that is not skipped. */
  function FirstTelling(ms: seq<Message>, target: Bytes): (k: nat)
    ensures k <= |ms|
    ensures forall i :: 0 <= i < k ==> Skipped(ms[i], target)
    ensures k < |ms| ==> !Skipped(ms[k], target)
  {
    if ms == [] || !Skipped(ms[0], target) then 0 else 1 + FirstTelling(ms[1..], target)
  }

  function Pings(ms: seq<Message>): nat {
    if ms == [] then 0 else Pings(ms[..|ms| - 1]) + if ms[|ms| - 1].msgType == MSG_PING then 1 else 0
  }

  /** From ConnectRequest on: one Pong for each Ping, the first telling message
      decides, and an invitation is joined with its own key. */
  function Negotiated(world: World, ms: seq<Message>, target: Bytes, pongs: nat): Outcome {
    if !world.requestSent then Outcome(GaveUp(RequestNotSent), pongs)
    else
      var k := FirstTelling(ms, target);
      var verdict :=
        if k == |ms| then GaveUp(ConnectionLost)
        else if Invites(ms[k], target) then JoinSession(world, Xdr.Decode(ms[k].body).value)
        else GaveUp(Fatal(ms[k]));
      Outcome(verdict, pongs + Pings(ms[..k]))
  }

  function JoinReplyVerdict(m: Message): Option<Reason> {
    if m.msgType != MSG_RESPONSE then Some(BadJoinReply)
    else if Rejects(m.body) then Some(JoinRejected)
    else None
  }

  /** The known-relay path: the very next message must be the join reply. */
  function Known(world: World, target: Bytes): Outcome {
    if !world.dialed then Outcome(GaveUp(DialFailed), 0)
    else if !world.certOk then Outcome(GaveUp(BadCertificate), 0)
    else if !world.joinSent then Outcome(GaveUp(JoinNotSent), 0)
    else if world.relay == [] then Outcome(GaveUp(ConnectionLost), 0)
    else match JoinReplyVerdict(world.relay[0])
      case Some(reason) => Outcome(GaveUp(reason), 0)
      case None => Negotiated(world, world.relay[1..], target, 0)
  }

  /** How many Pings come first. */
  function LeadingPings(ms: seq<Message>): (k: nat)
    ensures k <= |ms|
    ensures forall i :: 0 <= i < k ==> ms[i].msgType == MSG_PING
    ensures k < |ms| ==> ms[k].msgType != MSG_PING
  {
    if ms == [] || ms[0].msgType != MSG_PING then 0 else 1 + LeadingPings(ms[1..])
  }

  /** The scan path: Pings are answered while waiting for the join reply, and the
      certificate is not compared with anything. */
  function Scan(world: World, target: Bytes): Outcome {
    if !world.dialed then Outcome(GaveUp(DialFailed), 0)
    else if !world.joinSent then Outcome(GaveUp(JoinNotSent), 0)
    else
      var k := LeadingPings(world.relay);
      if k == |world.relay| then Outcome(GaveUp(ConnectionLost), k)
      else match JoinReplyVerdict(world.relay[k])
        case Some(reason) => Outcome(GaveUp(reason), k)
        case None => Negotiated(world, world.relay[k + 1..], target, k)
  }

  // The loops

  method ConnectToKnownRelay(world: World, target: Bytes) returns (o: Outcome)
    ensures o == Known(world, target)
  {
    hide Xdr.Decode;
    hide Word;
    hide JoinSession;
    if !world.dialed {
      return Outcome(GaveUp(DialFailed), 0);
    }
    if !world.certOk {
      return Outcome(GaveUp(BadCertificate), 0);
    }
    if !world.joinSent {
      return Outcome(GaveUp(JoinNotSent), 0);
    }
    if world.relay == [] {
      return Outcome(GaveUp(ConnectionLost), 0);
    }
    var reply := world.relay[0];
    if reply.msgType != MSG_RESPONSE {
      return Outcome(GaveUp(BadJoinReply), 0);
    }
    if |reply.body| >= 4 && Word(reply.body[..4]) != 0 {
      return Outcome(GaveUp(JoinRejected), 0);
    }
    if !world.requestSent {
      return Outcome(GaveUp(RequestNotSent), 0);
    }
    ghost var ms := world.relay[1..];
    var next, pongs := 1, 0;
    while next < |world.relay|
      invariant 1 <= next <= |world.relay|
      invariant pongs == Pings(ms[..next - 1])
      invariant forall i :: 0 <= i < next - 1 ==> Skipped(ms[i], target)
    {
      var m := world.relay[next];
      ghost var k := next - 1;
      assert m == ms[k];
      assert ms[..k + 1][..k] == ms[..k];
      next := next + 1;
      if m.msgType == MSG_PING {
        pongs := pongs + 1;
        continue;
      }
      if m.msgType == MSG_RESPONSE {
        if |m.body| >= 4 && Word(m.body[..4]) != 0 {
          TellingAt(ms, k, target);
          return Outcome(GaveUp(TargetRejected), pongs);
        }
        continue;
      }
      if m.msgType == MSG_SESSION_INVITATION {
        var inv := Xdr.DecodeInvitation(m.body);
        if inv.Failure? {
          TellingAt(ms, k, target);
          return Outcome(GaveUp(BadInvitation), pongs);
        }
        if |inv.value.from| != |target| {
          continue;
        }
        var same := SameBytes(inv.value.from, target);
        if !same {
          continue;
        }
        TellingAt(ms, k, target);
        return Outcome(JoinSession(world, inv.value), pongs);
      }
      TellingAt(ms, k, target);
      return Outcome(GaveUp(UnexpectedMessage), pongs);
    }
    AllSkipped(ms, target);
    assert ms[..|ms|] == ms;
    o := Outcome(GaveUp(ConnectionLost), pongs);
  }

  /** The first loop of tryRelayAndConnect: `next` is the position after the join reply. */
  method AwaitJoinReply(relay: seq<Message>) returns (failure: Option<Reason>, next: nat, pongs: nat)
    ensures var k := LeadingPings(relay);
            && (failure == if k == |relay| then Some(ConnectionLost) else JoinReplyVerdict(relay[k]))
            && next == (if k == |relay| then k else k + 1) && pongs == k
  {
    next, pongs := 0, 0;
    while true
      invariant pongs == next <= |relay| && forall i :: 0 <= i < next ==> relay[i].msgType == MSG_PING
      decreases |relay| - next
    {
      if next == |relay| {
        PingsEnd(relay, next);
        return Some(ConnectionLost), next, pongs;
      }
      var m := relay[next];
      next := next + 1;
      if m.msgType == MSG_PING {
        pongs := pongs + 1;
        continue;
      }
      PingsEnd(relay, next - 1);
      if m.msgType == MSG_RESPONSE {
        if |m.body| >= 4 && Word(m.body[..4]) != 0 {
          return Some(JoinRejected), next, pongs;
        }
        return None, next, pongs;
      }
      return Some(BadJoinReply), next, pongs;
    }
  }

  /** The second loop of tryRelayAndConnect, on the messages after the join reply. */
  method AwaitInvitation(world: World, ms: seq<Message>, target: Bytes, before: nat) returns (o: Outcome)
    ensures o == Negotiated(world, ms, target, before)
  {
    hide Xdr.Decode;
    hide Word;
    hide JoinSession;
    if !world.requestSent {
      return Outcome(GaveUp(RequestNotSent), before);
    }
    var next, pongs := 0, before;
    while next < |ms|
      invariant next <= |ms|
      invariant pongs == before + Pings(ms[..next])
      invariant forall i :: 0 <= i < next ==> Skipped(ms[i], target)
    {
      var m := ms[next];
      ghost var k := next;
      assert ms[..k + 1][..k] == ms[..k];
      next := next + 1;
      if m.msgType == MSG_PING {
        pongs := pongs + 1;
        continue;
      }
      if m.msgType == MSG_RESPONSE {
        if |m.body| >= 4 && Word(m.body[..4]) != 0 {
          TellingAt(ms, k, target);
          return Outcome(GaveUp(TargetRejected), pongs);
        }
        continue;
      }
      if m.msgType == MSG_SESSION_INVITATION {
        var inv := Xdr.DecodeInvitation(m.body);
        if inv.Failure? {
          TellingAt(ms, k, target);
          return Outcome(GaveUp(BadInvitation), pongs);
        }
        if |inv.value.from| != |target| {
          continue;
        }
        var same := SameBytes(inv.value.from, target);
        if !same {
          continue;
        }
        TellingAt(ms, k, target);
        return Outcome(JoinSession(world, inv.value), pongs);
      }
      TellingAt(ms, k, target);
      return Outcome(GaveUp(UnexpectedMessage), pongs);
    }
    AllSkipped(ms, target);
    assert ms[..|ms|] == ms;
    o := Outcome(GaveUp(ConnectionLost), pongs);
  }

  method TryRelayAndConnect(world: World, target: Bytes) returns (o: Outcome)
    ensures o == Scan(world, target)
  {
    hide Xdr.Decode;
    hide Word;
    hide JoinSession;
    if !world.dialed {
      return Outcome(GaveUp(DialFailed), 0);
    }
    if !world.joinSent {
      return Outcome(GaveUp(JoinNotSent), 0);
    }
    var failure, next, pongs := AwaitJoinReply(world.relay);
    if failure.Some? {
      return Outcome(GaveUp(failure.value), pongs);
    }
    o := AwaitInvitation(world, world.relay[next..], target, pongs);
  }

  /** The byte-by-byte comparison both loops contain. */
  method SameBytes(a: Bytes, b: Bytes) returns (same: bool)
    requires |a| == |b|
    ensures same <==> a == b
  {
    same := true;
    for i := 0 to |a|
      invariant same && a[..i] == b[..i]
    {
      if a[i] != b[i] {
        return false;
      }
    }
  }

  lemma TellingAt(ms: seq<Message>, k: nat, target: Bytes)
    requires k < |ms| && !Skipped(ms[k], target)
    requires forall i :: 0 <= i < k ==> Skipped(ms[i], target)
    ensures FirstTelling(ms, target) == k
  {
  }

  lemma AllSkipped(ms: seq<Message>, target: Bytes)
    requires forall i :: 0 <= i < |ms| ==> Skipped(ms[i], target)
    ensures FirstTelling(ms, target) == |ms|
  {
  }

  lemma PingsEnd(ms: seq<Message>, k: nat)
    requires k <= |ms| && (k < |ms| ==> ms[k].msgType != MSG_PING)
    requires forall i :: 0 <= i < k ==> ms[i].msgType == MSG_PING
    ensures LeadingPings(ms) == k
  {
  }

  // How the two relate

  /** The scan path does what the known-relay path would do once the leading
      Pings are taken away, and answers those as well. */
  lemma ScanIsKnownAfterPings(world: World, target: Bytes)
    requires world.certOk && world.dialed && world.joinSent
    ensures var k := LeadingPings(world.relay);
            var known := Known(world.(relay := world.relay[k..]), target);
            Scan(world, target) == Outcome(known.verdict, known.pongs + k)
  {
    var k := LeadingPings(world.relay);
    if k < |world.relay| {
      assert world.relay[k..][1..] == world.relay[k + 1..];
    }
  }

  /** The known-relay path succeeds exactly when the scan path does, the
      certificate passes, and no Ping comes before the join reply; and then both
      join with the same key at the same place. */
  lemma KnownVersusScan(world: World, target: Bytes)
    ensures Known(world, target).verdict.Joined? <==>
              && Scan(world, target).verdict.Joined?
              && world.certOk
              && world.relay[0].msgType != MSG_PING
    ensures Known(world, target).verdict.Joined? ==> Known(world, target) == Scan(world, target)
  {
  }

  /** Success, spelled out: some invitation from the target decodes, everything
      before it was passed over, its key was sent, and the relay accepted it. */
  lemma JoinsFirstInvitation(world: World, ms: seq<Message>, target: Bytes, pongs: nat, key: Bytes)
    ensures (exists at :: Negotiated(world, ms, target, pongs).verdict == Joined(key, at)) <==>
              && world.requestSent && world.sessionDialed && world.sessionSent
              && world.reply.Some? && world.reply.value.msgType == MSG_RESPONSE && !Rejects(world.reply.value.body)
              && exists k :: 0 <= k < |ms| && Invites(ms[k], target) && Xdr.Decode(ms[k].body).value.key == key
                             && forall i :: 0 <= i < k ==> Skipped(ms[i], target)
  {
    hide Xdr.Decode;
    var k := FirstTelling(ms, target);
    forall j: nat | j < |ms| && Invites(ms[j], target) && forall i :: 0 <= i < j ==> Skipped(ms[i], target)
      ensures j == k
    {
      TellingAt(ms, j, target);
    }
    if k < |ms| && Invites(ms[k], target) {
      var inv := Xdr.Decode(ms[k].body).value;
      assert JoinSession(world, inv).Joined? ==> JoinSession(world, inv) == Joined(inv.key, SessionEndpoint(inv));
    }
  }

  /** The address a client is told to dial at, None for the relay's own host. */
  predicate DialsAsInvited(at: Endpoint, inv: Xdr.Invitation) {
    && at.port == inv.port
    && at.address == if inv.address in {[], [0, 0, 0, 0], [0, 0, 0, 0, 0, 0, 0, 0, 0, 0, 0, 0, 0, 0, 0, 0],
                                        [0, 0, 0, 0, 0, 0, 0, 0, 0, 0, 255, 255, 0, 0, 0, 0]}
                     then None else Some(inv.address)
  }

  lemma UnspecifiedForms(ip: Bytes)
    ensures IsUnspecified(ip) <==>
              ip in {[0, 0, 0, 0], [0, 0, 0, 0, 0, 0, 0, 0, 0, 0, 0, 0, 0, 0, 0, 0],
                     [0, 0, 0, 0, 0, 0, 0, 0, 0, 0, 255, 255, 0, 0, 0, 0]}
  {
    var none: Bytes, ten: Bytes, all: Bytes := Zeros(4), Zeros(10), Zeros(16);
    assert none == [0, 0, 0, 0] && ten == [0, 0, 0, 0, 0, 0, 0, 0, 0, 0];
    assert all == [0, 0, 0, 0, 0, 0, 0, 0, 0, 0, 0, 0, 0, 0, 0, 0];
    var mapped: Bytes := [0, 0, 0, 0, 0, 0, 0, 0, 0, 0, 255, 255, 0, 0, 0, 0];
    assert mapped[..10] == ten && mapped[12..] == none;
    if |ip| == 16 {
      assert ip == ip[..10] + [ip[10], ip[11]] + ip[12..];
      assert mapped == ten + [255, 255] + none;
    }
  }

  lemma EndpointOf(inv: Xdr.Invitation)
    ensures DialsAsInvited(SessionEndpoint(inv), inv)
  {
    hide IsUnspecified;
    UnspecifiedForms(inv.address);
  }

  /** An answer without an error code: too short for one, or with code 0. */
  predicate Accepts(m: Message) {
    m.msgType == 4 && (|m.body| < 4 || m.body[..4] == [0, 0, 0, 0])
  }

  /** What the wait for an invitation may pass over: a Ping, an answer without an error
      code, and a well-formed invitation from somebody else. */
  predicate PassedOver(m: Message, target: Bytes) {
    || m.msgType == 0
    || Accepts(m)
    || (m.msgType == 6 && Xdr.Decode(m.body).Success? && Xdr.Decode(m.body).value.from != target)
  }

  /** `inv` is the content of the first message that is not passed over, and comes from
      the target. */
  predicate FirstInvitation(ms: seq<Message>, k: nat, inv: Xdr.Invitation, target: Bytes) {
    && k < |ms| && ms[k].msgType == 6 && Xdr.Decode(ms[k].body) == Success(inv) && inv.from == target
    && forall i :: 0 <= i < k ==> PassedOver(ms[i], target)
  }

  /** The messages lead to a session with this key at this endpoint. */
  ghost predicate LeadsTo(ms: seq<Message>, target: Bytes, key: Bytes, at: Endpoint) {
    exists k, inv :: FirstInvitation(ms, k, inv, target) && key == inv.key && DialsAsInvited(at, inv)
  }

  /** After nothing but Pings the join is accepted at `n`. */
  predicate AcceptedAt(relay: seq<Message>, n: nat) {
    n < |relay| && Accepts(relay[n]) && forall i :: 0 <= i < n ==> relay[i].msgType == 0
  }

  lemma RejectsUnlessAccepted(m: Message)
    ensures m.msgType == MSG_RESPONSE && !Rejects(m.body) <==> Accepts(m)
  {
    hide Word;
    if |m.body| >= 4 {
      ZeroWord();
      WordBound(m.body[..4]);
    }
  }

  lemma SkippedIsPassedOver(m: Message, target: Bytes)
    ensures Skipped(m, target) <==> PassedOver(m, target)
  {
    hide Rejects;
    hide Accepts;
    RejectsUnlessAccepted(m);
  }

  /** Everything on the way from the request to the session succeeds. */
  predicate Reachable(world: World) {
    && world.requestSent && world.sessionDialed && world.sessionSent
    && world.reply.Some? && Accepts(world.reply.value)
  }

  lemma NegotiatedJoins(world: World, ms: seq<Message>, target: Bytes, pongs: nat, key: Bytes, at: Endpoint)
    ensures Negotiated(world, ms, target, pongs).verdict == Joined(key, at) <==>
            Reachable(world) && LeadsTo(ms, target, key, at)
  {
    hide Xdr.Decode;
    hide Rejects;
    hide Accepts;
    hide DialsAsInvited;
    hide SessionEndpoint;
    forall m
      ensures Skipped(m, target) <==> PassedOver(m, target)
    {
      SkippedIsPassedOver(m, target);
    }
    if world.reply.Some? {
      RejectsUnlessAccepted(world.reply.value);
    }
    hide Skipped;
    hide PassedOver;
    var n := FirstTelling(ms, target);
    forall k: nat, inv | FirstInvitation(ms, k, inv, target)
      ensures k == n && inv == Xdr.Decode(ms[n].body).value && Invites(ms[n], target)
    {
      InvitationTells(ms[k], inv, target);
      TellingAt(ms, k, target);
    }
    if n < |ms| && Invites(ms[n], target) {
      var inv := Xdr.Decode(ms[n].body).value;
      assert FirstInvitation(ms, n, inv, target);
      EndpointOf(inv);
      forall other: Endpoint | DialsAsInvited(other, inv)
        ensures other == SessionEndpoint(inv)
      {
        SameEndpoint(other, SessionEndpoint(inv), inv);
      }
    }
  }

  lemma InvitationTells(m: Message, inv: Xdr.Invitation, target: Bytes)
    requires m.msgType == 6 && Xdr.Decode(m.body) == Success(inv) && inv.from == target
    ensures !Skipped(m, target) && Invites(m, target)
  {
    hide Xdr.Decode;
  }

  lemma SameEndpoint(a: Endpoint, b: Endpoint, inv: Xdr.Invitation)
    requires DialsAsInvited(a, inv) && DialsAsInvited(b, inv)
    ensures a == b
  {
  }

  /** The known-relay path ends in a session with this key at this endpoint exactly if
      the certificate passes, the relay's first message accepts the join, what follows
      leads to an invitation from the target, with this key and address, and its session
      accepts. */
  lemma KnownJoins(world: World, target: Bytes, key: Bytes, at: Endpoint)
    ensures Known(world, target).verdict == Joined(key, at) <==>
            && world.dialed && world.certOk && world.joinSent
            && world.relay != [] && Accepts(world.relay[0]) && Reachable(world)
            && LeadsTo(world.relay[1..], target, key, at)
  {
    hide Xdr.Decode;
    hide Rejects;
    hide Accepts;
    hide Negotiated;
    hide DialsAsInvited;
    if world.relay != [] {
      RejectsUnlessAccepted(world.relay[0]);
      NegotiatedJoins(world, world.relay[1..], target, 0, key, at);
    }
  }

  /** The scan path does exactly if that holds after any number of Pings, whatever the
      certificate. */
  lemma ScanJoins(world: World, target: Bytes, key: Bytes, at: Endpoint)
    ensures Scan(world, target).verdict == Joined(key, at) <==>
            && world.dialed && world.joinSent && Reachable(world)
            && exists n :: AcceptedAt(world.relay, n) && LeadsTo(world.relay[n + 1..], target, key, at)
  {
    hide Xdr.Decode;
    hide Rejects;
    hide Negotiated;
    hide DialsAsInvited;
    hide LeadsTo;
    hide Accepts;
    var n := LeadingPings(world.relay);
    forall m: nat | AcceptedAt(world.relay, m)
      ensures m == n
    {
      AcceptedEndsPings(world.relay, m);
    }
    if n < |world.relay| {
      RejectsUnlessAccepted(world.relay[n]);
      assert Accepts(world.relay[n]) ==> AcceptedAt(world.relay, n);
      NegotiatedJoins(world, world.relay[n + 1..], target, n, key, at);
    }
  }

  lemma AcceptedEndsPings(relay: seq<Message>, n: nat)
    requires AcceptedAt(relay, n)
    ensures LeadingPings(relay) == n && Accepts(relay[n])
  {
    PingsEnd(relay, n);
  }

  /** A whole exchange, message by message: the join is accepted, a Ping is answered,
      an invitation for somebody else is passed over, and the target's is joined. */
  lemma WholeExchange(world: World, other: Xdr.Invitation, inv: Xdr.Invitation)
    requires Xdr.Encodable(other) && Xdr.Encodable(inv) && other.from != inv.from
    requires world.dialed && world.certOk && world.joinSent && world.requestSent
    requires world.sessionDialed && world.sessionSent && world.reply == Some(Message(4, [0, 0, 0, 0]))
    requires world.relay == [Message(4, []), Message(0, []), Message(6, Xdr.Encode(other)), Message(6, Xdr.Encode(inv))]
    ensures Known(world, inv.from).pongs == 1 && Known(world, inv.from).verdict.Joined?
    ensures Known(world, inv.from).verdict.key == inv.key && DialsAsInvited(Known(world, inv.from).verdict.at, inv)
  {
    hide Xdr.Decode;
    hide Xdr.Encode;
    hide SessionEndpoint;
    hide DialsAsInvited;
    Xdr.DecodeEncode(other, []);
    Xdr.DecodeEncode(inv, []);
    assert Xdr.Encode(other) + [] == Xdr.Encode(other) && Xdr.Encode(inv) + [] == Xdr.Encode(inv);
    ZeroWord();
    assert !Rejects([0, 0, 0, 0]) by {
      assert [0, 0, 0, 0][..4] == [0, 0, 0, 0];
    }
    var ms := world.relay[1..];
    assert ms == [Message(0, []), Message(6, Xdr.Encode(other)), Message(6, Xdr.Encode(inv))];
    TellingAt(ms, 2, inv.from);
    assert ms[..2] == [ms[0], ms[1]];
    PingsOfTwo(ms[0], ms[1]);
    EndpointOf(inv);
  }

  lemma ZeroWord()
    ensures Word([0, 0, 0, 0]) == 0
  {
    assert Zeros(4) + [] == [0, 0, 0, 0];
    ValueOfZeros(4, [], 256);
  }

  lemma PingsOfTwo(a: Message, b: Message)
    ensures Pings([a, b]) == (if a.msgType == MSG_PING then 1 else 0) + if b.msgType == MSG_PING then 1 else 0
  {
    assert Pings([a]) == (if a.msgType == MSG_PING then 1 else 0) by {
      assert [a][..0] == [] && Pings([]) == 0;
    }
    assert [a, b][..1] == [a];
  }
}
