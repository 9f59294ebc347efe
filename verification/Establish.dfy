/** How the client (re)establishes a tunnel: NewClient's relay choice and
    establishNewSession in client.go. What the network does is a parameter. */
module Establish {
  import opened Numerals
  import opened Text
  import DeviceId
  import Padding
  import RelayHint

  /** The configured relay URI: none (the empty string), a text, or the one that
      NewClient makes of a hint, `relay://` with the address and port. */
  datatype RelayUri = Unset | Text(uri: string) | OfHint(ip: Bytes, port: nat)

  function FromText(uri: string): RelayUri {
    if uri == "" then Unset else Text(uri)
  }

  /** What NewClient takes from a target ID and a configured relay: the device and
      the relay to begin with. */
  function Choice(target: string, configured: string): Result<(Bytes, RelayUri)> {
    var h := RelayHint.Split(target);
    match DeviceId.Parse(h.cleanId)
    case Failure(e) => Failure(e)
    case Success(bytes) =>
      Success((bytes, if configured != "" then Text(configured) else if h.ok then OfHint(h.ip, h.port) else Unset))
  }

  /** The relay written into the target ID is the one the client begins with
      exactly when there is no white space around the ID, or just 19 newlines after
      an IPv4 hint on a standard ID. Otherwise the ID is refused, or taken with the
      relay silently dropped; it is never taken for another ID or relay. */
  lemma WrittenRelayChosen(raw: Bytes, sp: DeviceId.Spelling, pre: string, post: string)
    requires |raw| == 32 && Padding.HasHint(sp) && DeviceId.Writable(sp) && Padding.White(pre) && Padding.White(post)
    ensures var choice := Choice(pre + DeviceId.Write(raw, sp) + post, "");
            var written := OfHint(RelayHint.Canonical(sp.ip), sp.port % 0x1_0000);
            && (choice == Success((raw, written)) <==> pre == "" && (post == "" || Padding.LateNewlines(sp, post)))
            && (choice.Failure? || choice == Success((raw, written)) || choice == Success((raw, Unset)))
  {
    hide DeviceId.Parse;
    hide DeviceId.Write;
    hide RelayHint.Split;
    hide Padding.LateNewlines;
    Padding.PaddedHint(raw, sp, pre, post);
  }

  /** A final newline alone costs the relay. */
  lemma FinalNewlineDropsRelay(raw: Bytes, sp: DeviceId.Spelling)
    requires |raw| == 32 && Padding.HasHint(sp) && DeviceId.Writable(sp)
    ensures Choice(DeviceId.Write(raw, sp) + "\n", "") == Success((raw, Unset))
  {
    hide DeviceId.Parse;
    hide DeviceId.Write;
    hide RelayHint.Split;
    Padding.FinalNewlineDropsHint(raw, sp);
  }

  /** What an attempt at the known relay meets: a done context, a relay that
      cannot be joined, a failing handshake with the device, or success. */
  datatype Attempt = ContextDone | ConnectFails | HandshakeFails | Works

  /** What a scan finds: nothing, or a relay, with what parseRelayURI makes of its
      URI (both parts empty on an error) and whether the handshake succeeds. */
  datatype Scan = Nothing | Found(uri: string, addr: string, id: string, handshake: bool)

  datatype World = World(attempts: seq<Attempt>, scan: Scan)
  {
    /** Three attempts are ever made; relays in the list have an URI. */
    predicate Valid() {
      |attempts| == 3 && (scan.Found? ==> scan.uri != "")
    }
  }

  datatype Ending =
    | Established | Cancelled | ConnectFailed | HandshakeFailed | ScanFailed | FixedUriMissing | GaveUpTrying

  /** What one call did: attempts at the known relay, scans, nested calls, and
      tunnel connections dialed and closed. */
  datatype Log = Log(known: nat, scans: nat, depth: nat, dialed: nat, closed: nat)

  predicate Retried(a: Attempt) {
    a.ConnectFails? || a.HandshakeFails?
  }

  /** The first attempt that is not followed by another whatever it meets. */
  function Decisive(attempts: seq<Attempt>): (k: nat)
    ensures k <= |attempts|
    ensures forall i :: 0 <= i < k ==> Retried(attempts[i])
    ensures k < |attempts| ==> !Retried(attempts[k])
  {
    if attempts == [] || !Retried(attempts[0]) then 0 else 1 + Decisive(attempts[1..])
  }

  lemma DecisiveAt(attempts: seq<Attempt>, k: nat)
    requires k <= |attempts| && forall i :: 0 <= i < k ==> Retried(attempts[i])
    requires k < |attempts| ==> !Retried(attempts[k])
    ensures Decisive(attempts) == k
  {
  }

  /** What the first decisive attempt means for the three: a done context counts only
      if it comes before success, and each failure of either kind is retried. */
  lemma DecisiveMeaning(attempts: seq<Attempt>)
    requires |attempts| == 3
    ensures var k := Decisive(attempts);
            && (k < 3 ==> attempts[k] == Works || attempts[k] == ContextDone)
            && (forall j: nat :: j < 3 && attempts[j] == Works && ContextDone !in attempts[..j] ==>
                  k < 3 && attempts[k] == Works)
            && (forall j: nat :: j < 3 && attempts[j] == ContextDone && Works !in attempts[..j] ==>
                  k < 3 && attempts[k] == ContextDone)
            && (ContextDone !in attempts && Works !in attempts ==> k == 3)
  {
    var k := Decisive(attempts);
    assert attempts == [attempts[0], attempts[1], attempts[2]];
    forall j: nat | j < 3 && attempts[j] == Works && ContextDone !in attempts[..j]
      ensures k < 3 && attempts[k] == Works
    {
      assert k <= j;
      assert k < j ==> attempts[..j][k] == attempts[k];
    }
    forall j: nat | j < 3 && attempts[j] == ContextDone && Works !in attempts[..j]
      ensures k < 3 && attempts[k] == ContextDone
    {
      assert k <= j;
      assert k < j ==> attempts[..j][k] == attempts[k];
    }
  }

  class Client {
    const target: Bytes
    const isFixedRelay: bool
    var relayUri: RelayUri
    var relayAddr: string
    var relayId: string

    ghost predicate Valid()
      reads this
    {
      && (isFixedRelay ==> relayUri != Unset)
      && (relayUri == Unset ==> relayAddr == "" && relayId == "")
      && relayUri != Text("")
    }

    /** The relay fields, together. */
    ghost function Relay(): (RelayUri, string, string)
      reads this
    {
      (relayUri, relayAddr, relayId)
    }

    constructor (target: Bytes, isFixedRelay: bool, relayUri: RelayUri, relayAddr: string, relayId: string)
      requires isFixedRelay ==> relayUri != Unset
      requires relayUri == Unset ==> relayAddr == "" && relayId == ""
      requires relayUri != Text("")
      ensures Valid() && this.target == target && this.isFixedRelay == isFixedRelay
      ensures Relay() == (relayUri, relayAddr, relayId)
    {
      this.target, this.isFixedRelay := target, isFixedRelay;
      this.relayUri, this.relayAddr, this.relayId := relayUri, relayAddr, relayId;
    }

    /** Fails on an ID that the parser rejects once its hint is gone, and on a relay
        URI that cannot be parsed. The configured relay goes before the hinted one,
        and only it is fixed. `parsed` is what parseRelayURI would make of the
        chosen URI. */
    static method NewClient(targetId: string, configured: string, parsed: Option<(string, string)>)
      returns (c: Client?)
      ensures var choice := Choice(targetId, configured);
              && (c == null <==> choice.Failure? || (choice.value.1 != Unset && parsed.None?))
              && (c != null ==>
                    && fresh(c) && c.Valid() && c.target == choice.value.0
                    && (c.isFixedRelay <==> configured != "")
                    && c.Relay() == if choice.value.1 == Unset then (Unset, "", "")
                                    else (choice.value.1, parsed.value.0, parsed.value.1))
    {
      hide DeviceId.Parse;
      hide RelayHint.Split;
      var hinted := RelayHint.SplitRelayHint(targetId);
      var target := DeviceId.DeviceIDFromString(hinted.cleanId);
      if target.Failure? {
        return null;
      }
      var uri, fixed := FromText(configured), false;
      if uri != Unset {
        fixed := true;
      } else if hinted.ok {
        uri := OfHint(hinted.ip, hinted.port);
      }
      var addr, id := "", "";
      if uri != Unset {
        if parsed.None? {
          return null;
        }
        addr, id := parsed.value.0, parsed.value.1;
      }
      c := new Client(target.value, fixed, uri, addr, id);
    }

    /** The call scans: no relay is known, or one that is not fixed could not be
        joined at the third attempt, after two failures of any kind. */
    ghost predicate Scans(world: World)
      requires world.Valid()
      reads this
    {
      relayUri == Unset || (!isFixedRelay && Decisive(world.attempts) == 3 && world.attempts[2] == ConnectFails)
    }

    /** Terminates, with at most three attempts at the known relay, one scan and
        one nested call. The branch for a fixed relay without a URI is never taken,
        nor the end of the loop. A tunnel connection is left open exactly on
        success. The relay fields change only in a call that scans, to what the
        scan found or to nothing. */
    method EstablishNewSession(world: World) returns (ending: Ending, log: Log)
      requires Valid() && world.Valid()
      modifies this
      ensures Valid()
      ensures ending != FixedUriMissing && ending != GaveUpTrying
      ensures log.known <= 3 && log.depth <= 1 && log.dialed == log.closed + if ending == Established then 1 else 0
      ensures log.scans == if old(Scans(world)) then 1 else 0
      ensures log.depth == if old(Scans(world)) && old(relayUri) != Unset then 1 else 0
      ensures old(Scans(world)) ==>
                match world.scan
                case Nothing => ending == ScanFailed && Relay() == (Unset, "", "")
                case Found(uri, addr, id, handshake) =>
                  ending == (if handshake then Established else HandshakeFailed) &&
                  Relay() == (Text(uri), addr, id)
      ensures !old(Scans(world)) ==>
                var k := Decisive(world.attempts);
                && Relay() == old(Relay())
                && ending == (if k == 3
                              then if world.attempts[2] == ConnectFails then ConnectFailed else HandshakeFailed
                              else if world.attempts[k] == Works then Established else Cancelled)
      ensures old(relayUri) != Unset ==>
                var k := Decisive(world.attempts);
                log.known == if k == 3 || world.attempts[k] == ContextDone then k else k + 1
      ensures old(relayUri) != Unset ==> var a := world.attempts;
                && (ending == Cancelled ==> ContextDone in a)
                && (forall j: nat :: j < 3 && a[j] == Works && ContextDone !in a[..j] ==>
                      ending == Established && log.scans == 0)
                && (forall j: nat :: j < 3 && a[j] == ContextDone && Works !in a[..j] ==>
                      ending == Cancelled && log.scans == 0)
                && (Works !in a && ContextDone !in a ==>
                      && log.known == 3
                      && (a[2] == HandshakeFails ==> ending == HandshakeFailed && log.scans == 0)
                      && (a[2] == ConnectFails && isFixedRelay ==> ending == ConnectFailed && log.scans == 0)
                      && (a[2] == ConnectFails && !isFixedRelay ==> log.scans == 1))
      decreases relayUri != Unset
    {
      log := Log(0, 0, 0, 0, 0);
      DecisiveMeaning(world.attempts);
      if relayUri == Unset {
        if isFixedRelay {
          return FixedUriMissing, log;
        }
        log := log.(scans := 1);
        if world.scan.Nothing? {
          return ScanFailed, log;
        }
        log := log.(dialed := 1);
        relayUri := FromText(world.scan.uri);
        relayAddr, relayId := world.scan.addr, world.scan.id;
        if !world.scan.handshake {
          return HandshakeFailed, log.(closed := 1);
        }
        return Established, log;
      }
      for attempt := 0 to 3
        invariant Valid() && Relay() == old(Relay()) && attempt < 3
        invariant log == Log(attempt, 0, 0, log.dialed, log.dialed)
        invariant forall i :: 0 <= i < attempt ==> Retried(world.attempts[i])
      {
        var met := world.attempts[attempt];
        if !Retried(met) {
          DecisiveAt(world.attempts, attempt);
        } else if attempt == 2 {
          DecisiveAt(world.attempts, 3);
        }
        if met == ContextDone {
          return Cancelled, log;
        }
        log := log.(known := log.known + 1);
        if met == ConnectFails {
          if attempt < 2 {
            continue;
          }
          if !isFixedRelay {
            relayUri, relayAddr, relayId := Unset, "", "";
            var nested;
            ending, nested := EstablishNewSession(world);
            log := log.(scans := nested.scans, depth := nested.depth + 1,
                        dialed := log.dialed + nested.dialed, closed := log.closed + nested.closed);
            return ending, log;
          }
          return ConnectFailed, log;
        }
        log := log.(dialed := log.dialed + 1);
        if met == HandshakeFails {
          log := log.(closed := log.closed + 1);
          if attempt < 2 {
            continue;
          }
          return HandshakeFailed, log;
        }
        return Established, log;
      }
      return GaveUpTrying, log;
    }
  }

  /** DialContext takes the same configuration. Without a configured relay it discovers
      one first, and configures it. So a relay written into the target ID is never
      used, whatever the ID: the client begins with the configured relay or the
      discovered one, which counts as fixed, and it never scans for the device.
      `discovered` is the URL of the best relay, None when there is none; listed
      relays have one (decodeRelays). */
  method DialContext(targetId: string, configured: string, discovered: Option<string>,
                     parsed: Option<(string, string)>, world: World)
    returns (c: Client?, ending: Option<Ending>, log: Log)
    requires world.Valid() && (discovered.Some? ==> discovered.value != "")
    ensures var relay := if configured != "" then Some(configured) else discovered;
            && (c == null <==> relay.None? || parsed.None? || Choice(targetId, "").Failure?)
            && (c == null <==> ending == None)
            && (c != null ==>
                  && c.Valid() && c.isFixedRelay && c.target == Choice(targetId, "").value.0
                  && c.Relay() == (Text(relay.value), parsed.value.0, parsed.value.1)
                  && log.scans == 0 && log.depth == 0 && ending != Some(ScanFailed))
  {
    hide DeviceId.Parse;
    hide RelayHint.Split;
    c, ending, log := null, None, Log(0, 0, 0, 0, 0);
    var uri := configured;
    if uri == "" {
      if discovered.None? {
        return;
      }
      uri := discovered.value;
    }
    ConfiguredChoice(targetId, uri);
    c := Client.NewClient(targetId, uri, parsed);
    if c != null {
      var e;
      e, log := c.EstablishNewSession(world);
      ending := Some(e);
    }
  }

  /** A configured relay hides the one in the ID and changes nothing else. */
  lemma ConfiguredChoice(targetId: string, configured: string)
    requires configured != ""
    ensures Choice(targetId, configured).Success? <==> Choice(targetId, "").Success?
    ensures Choice(targetId, "").Success? ==>
              Choice(targetId, configured) == Success((Choice(targetId, "").value.0, Text(configured)))
  {
    hide DeviceId.Parse;
    hide RelayHint.Split;
  }

  /** In every state a client can reach by any number of calls, a configured relay
      is still the one that was configured. */
  method Reconnect(targetId: string, configured: string, parsed: Option<(string, string)>, worlds: seq<World>)
    returns (c: Client?)
    requires forall i :: 0 <= i < |worlds| ==> worlds[i].Valid()
    ensures c != null ==> c.Valid() && (c.isFixedRelay <==> configured != "")
    ensures c != null && configured != "" ==>
              parsed.Some? && c.Relay() == (Text(configured), parsed.value.0, parsed.value.1)
  {
    hide DeviceId.Parse;
    hide RelayHint.Split;
    c := Client.NewClient(targetId, configured, parsed);
    if c == null {
      return;
    }
    for i := 0 to |worlds|
      invariant c.Valid() && (c.isFixedRelay <==> configured != "")
      invariant configured != "" ==> c.Relay() == (Text(configured), parsed.value.0, parsed.value.1)
    {
      var _, _ := c.EstablishNewSession(worlds[i]);
    }
  }
}
