# Verified model of overthing

overthing tunnels a connection through a Syncthing relay. This project models
its core in Dafny and proves what the rest of the program relies on. It checks
with `dafny verify dfyconfig.toml`.

| part | modules |
|---|---|
| device IDs and relay hints | `Numerals`, `Text`, `Radix`, `Base63`, `Base32`, `Luhn`, `RelayHint`, `HintAddress`, `DeviceId`, `KnownId`, `Padding`, `LetterCase`, `AllowList` |
| wire format | `ByteStreams`, `Wire`, `Xdr`, `Copy`, `CopyPair` |
| client | `RelayScan`, `SessionManager`, `Handshake`, `Establish` |
| server | `ServerSession`, `ServerStreams` |
| relay selection | `Deadline`, `PreFilter`, `Latency`, `Selection`, `Discovery` |
| shared | `Counting`, `Sorting` |

Loops and in-place updates are methods, each proved against a specification
function; the theorems are lemmas about those functions. Concurrent code is a
state, a set of enabled steps and an `IsRun` predicate over sequences of states,
with any number of workers, callers or tunnels; the theorems hold in every state
of every run. Strings hold one `char` per byte; bytes are numbers below 256.

## What the proofs found

Ten things the repository says, or a reader would expect, hold only in part.
The model follows the code and proves exactly when each of them holds; an input
at which it fails is named where there is a short one.

* A compact ID with an IPv4 hint is 51 characters (README.md:41,
  config.go:78) only while the packed address and port are below 63^8: with a
  first octet up to 224 always, from 226 on never. Above that the hint takes
  nine digits, and the 52-character ID is rejected
  (`RelayHint.SplitJoinCompact`, `DeviceId.HighAddressesRejected`,
  `DeviceId.OverflowExample`, `ServerSession.AdvertisedReads`).
* A standard ID with exactly two dashes and an IPv4 hint can be taken for a
  compact ID with an IPv6 hint (`RelayHint.SplitJoinStandard`,
  `RelayHint.TwoDashesExample`). The dashing the code documents, every seven
  characters, is safe (`DeviceId.SpellingsSplit`).
* "If empty and TargetID contains a hint, uses the hinted relay" (config.go:93)
  holds for clients made with NewClient, and there only without white space
  around the ID, or with 19 newlines after an IPv4 hint on a standard ID: the
  parser trims, but NewClient looks for the hint first. One final newline makes
  it drop the relay without an error (`Establish.WrittenRelayChosen`,
  `Establish.FinalNewlineDropsRelay`).
* With Dial and DialContext, which share that configuration, it never holds: they
  discover a relay first and configure it, so that the hint is not used whatever
  the ID, and the client never scans for the device (`Establish.DialContext`).
* The parser ignores the case of a standard ID, but with a hint only outside the
  hint: lower-cased, it is rejected as soon as the hint has a letter
  (`LetterCase.HintAnyCase`, `LetterCase.LowerCased`).
* The server's allow-list compares text. A dashed ID, or one with a hint, is
  understood everywhere else but as an entry admits nobody
  (`AllowList.BareSpellingsOnly`).
* The timeouts given to the discovery endpoints can sum to more than the
  remaining time when an early endpoint fails fast (`Deadline.SumFits`,
  `Deadline.SumOverruns`).
* `TestLatency` uses 0 for "nothing measured". A measured 0 makes it forget
  what came before, and as the last measurement makes a relay that answered
  count as unreachable (`Latency.Reports`, `Latency.ZeroLosesRelay`,
  `Latency.ZeroForgotten`).
* When the pre-filter keeps any relay, no other is tested. If those all fail, the
  call fails although another relay would pass (`Discovery.TestAllAndSort`).
* A tunnel copies both directions in full for sure only if each connection that
  has something to deliver closes its write side alone. The program's own streams
  do not: they have no CloseWrite, and once closed they are cut off after 30
  seconds (helpers.go:70). So what comes out of a tunnel is never sure to be
  complete when the local side ends first (`CopyPair.CompleteIff`,
  `CopyPair.TunnelOneWay`, `CopyPair.LosingRun`).

Also, tunnel.go:51 calls the compact form base64url; it is base 63 over the
alphabet of identity.go:21.

## Model

| member | source | states |
|---|---|---|
| Numerals.ReverseInPlace | pkg/security/identity.go:43-45 | The swap loop leaves the array reversed. |
| Radix.WriteNumber | pkg/security/identity.go:30-47 | Digit loop, 'A' fill and reversal together write the number's Base63 numeral, padded on the left to the given width. |
| Radix.ReadNumber | pkg/security/identity.go:55-63 | The multiply-and-add loop succeeds exactly on strings over the alphabet, and then yields their positional value. |
| Radix.NumberToBytes | pkg/security/identity.go:65-70 | The big-endian bytes of a number, filled up with zero bytes to the wanted size; longer when the number does not fit. |
| Radix.NumberInverse | pkg/security/identity.go:29-76 | Every string over the alphabet is the padded numeral of its own value. |
| Base63.DecodeEncode | pkg/security/identity.go:29-76 | Every 32-byte value is written as exactly 43 alphabet characters, which decode to it. |
| Base63.EncodeDecode | pkg/security/identity.go:29-76 | Whatever decodes is encoded back to the very same string, so no value has two spellings. |
| Base63.DecodesExactly | pkg/security/identity.go:50-76 | A string decodes if and only if it has 43 characters, all in the alphabet, and a value below 2^256. |
| Base63.ReadsByRank | pkg/security/identity.go:21 | The bytes of a compact ID, big-endian, are the number its characters spell by their place in A-Z, a-z, 0-9 and underscore, the first as the most significant digit. |
| Base63.SavedSeedReloads | pkg/security/identity.go:241-245 | A seed saved with a final newline is reloaded unchanged after trimming. |
| Base63.DecodeBase63 | pkg/security/identity.go:50-76 | The decoder with its three error cases, in terms of `FromBase63`. |
| Base63.EncodeBase63 | pkg/security/identity.go:29-48 | The encoder with its loops writes the 43-character numeral. |
| Base32.DigitsRoundTrip | pkg/security/identity.go:409-423 | Regrouping bytes into 5-bit groups and back (section 6 of RFC 4648) loses nothing, for any length. |
| Base32.DecodeEncode | pkg/security/identity.go:409-423 | The unpadded Base32 text of any bytes is over the alphabet and decodes to them. |
| Base32.StandardVectors | pkg/security/identity.go:409-423 | Two vectors of section 10 of RFC 4648, which fix the order of the bits. |
| Luhn.ComputeCheckDigitIn | pkg/security/identity.go:379-407 | The loop over factor and sum computes `CheckDigitIn`, skipping characters outside the alphabet. |
| Luhn.ComputeCheckDigit | pkg/security/identity.go:379-407 | The same over the Base32 alphabet. |
| Luhn.RunIsSum | pkg/security/identity.go:379-407 | On Base32 text the running sum is the sum of addends whose factor alternates with the place. |
| Luhn.AddendPermutes | pkg/security/identity.go:390-398 | Doubling with the carry added back is a permutation of 0..31. |
| Luhn.ReplacementDetected | pkg/security/identity.go:379-407 | Replacing any one character always changes the check digit. |
| Luhn.SwapDetected | pkg/security/identity.go:379-407 | Swapping neighbours keeps the check digit if and only if they are equal or are the first and last letter of the alphabet. |
| Luhn.ChecksToZero | pkg/security/identity.go:400-406 | Text and check digit together sum to a multiple of 32. |
| Luhn.GroupSum | pkg/security/identity.go:384-398 | The sum over a group takes every second codepoint, from the second on, doubled with the carry added back. |
| Luhn.ForeignSkipped | pkg/security/identity.go:386-389 | A character outside the alphabet changes nothing. |
| KnownId.KnownIdParses | specifications.txt:265 | A relay ID in use has the four check digits so computed, and is accepted. |
| RelayHint.JoinRelayHint | pkg/security/identity.go:80-133 | The method with its loops computes `Join`. |
| RelayHint.SplitRelayHint | pkg/security/identity.go:135-191 | The method with its loops and its fall-through to the standard case computes `Split`. |
| RelayHint.HintBytes | pkg/security/identity.go:157-178 | The packed bytes of a hint, of 6 or 18 bytes exactly when its value fits. |
| RelayHint.DecodePackedPack | pkg/security/identity.go:193-204 | Unpacking a packed hint gives back the address bytes and the port modulo 2^16. |
| RelayHint.EightDigitsFit | pkg/security/identity.go:157-172 | Eight Base63 digits never need more than six bytes. |
| RelayHint.CompactHintWidth | pkg/security/identity.go:97-121 | The hint has its fixed width exactly when the packed value fits; otherwise it has nine digits. |
| RelayHint.SplitJoinCompact | pkg/security/identity.go:80-172 | On any 43-character ID, splitting undoes joining if and only if the address is IPv6 or the packed value is below 63^8; otherwise the result is 52 characters with no hint found. |
| RelayHint.FitsByFirstOctet | pkg/security/identity.go:80-121 | Every IPv6 address, and every IPv4 address with first octet at most 224, fits. |
| RelayHint.OverflowsByFirstOctet | pkg/security/identity.go:80-121 | No IPv4 address with first octet at least 226 fits. |
| RelayHint.SplitJoinStandard | pkg/security/identity.go:123-191 | On any standard ID, however dashed, splitting undoes joining if and only if the text does not pass the compact branch, which can happen only with two dashes and IPv4. |
| RelayHint.TwoDashesMisread | pkg/security/identity.go:137-172 | A whole family of two-dash IDs for which every IPv4 hint is misread. |
| RelayHint.TwoDashesExample | pkg/security/identity.go:137-172 | A concrete member of that family. |
| HintAddress.FormsJoinAlike | pkg/security/identity.go:82-86 | The 4-byte and the 16-byte form of an IPv4 address are joined to the same text. |
| HintAddress.V4OnCompact | pkg/security/identity.go:80-172 | A compact hint is the numeral of the address and then the port, and gives back exactly the four bytes that were joined, in either form, if and only if that number is below 63^8. |
| HintAddress.V6OnCompact | pkg/security/identity.go:87-172 | Every other 16-byte address comes back byte for byte. |
| HintAddress.V4OnStandard | pkg/security/identity.go:123-191 | The same for four bytes on a standard ID, unless the text passes the compact branch. |
| HintAddress.V6OnStandard | pkg/security/identity.go:123-191 | The same for sixteen bytes on a standard ID, always. |
| HintAddress.OtherLengths | pkg/security/identity.go:87-91 | An address of any other length comes back cut, or filled up with zeros, to 16 bytes. |
| HintAddress.DocumentedHint | README.md:34 | On every compact ID the hint AbCdEfGh of the documentation names the relay at 1.137.158.67, port 53868. |
| DeviceId.BytesToDeviceID | pkg/security/identity.go:430-443 | The chunk loop writes the four groups with their check digits. |
| DeviceId.StandardReadsBack | pkg/security/identity.go:409-443 | The 56-character spelling of any 32 bytes is Base32 text that reads back as them (specifications.txt:16-25). |
| DeviceId.DeviceIDFromString | pkg/security/identity.go:344-377 | The parser, with trimming, hint removal, the compact attempt and the check loop, computes `Parse`. |
| DeviceId.CheckGroups | pkg/security/identity.go:364-372 | The check loop accepts exactly the IDs whose four groups carry their check digit. |
| DeviceId.ParseIffChecked | pkg/security/identity.go:360-377 | 56 Base32 letters are accepted if and only if all four check digits are right. |
| DeviceId.SpellingsSplit | pkg/security/identity.go:135-191 | For every 32-byte ID and every spelling the code writes or documents, a hint is found exactly where one was written, with its address and port; the only exception is the overflowing IPv4 hint. |
| DeviceId.SpellingsParse | pkg/security/identity.go:344-377 | Every spelling of an ID parses to the same 32 bytes, if and only if its hint did not overflow. |
| DeviceId.OverflowRejected | pkg/security/identity.go:344-377 | A compact ID with an overflowing hint is rejected altogether. |
| DeviceId.HighAddressesRejected | pkg/security/identity.go:80-121 | A compact ID with a hint for any such address has 52 characters, shows no hint and is rejected. |
| DeviceId.OverflowExample | pkg/security/identity.go:344-377 | Every ID with a hint for 226.0.0.0 is rejected. |
| Padding.PaddedHint | pkg/security/identity.go:135-191 | For every spelling with a hint and any white space around it: the hint is found exactly without white space or with 19 newlines after an IPv4 hint on a standard ID; otherwise the ID is still read when no hint is found, and rejected when a wrong one is. |
| Padding.LateNewlinesUsed | pkg/security/identity.go:174-188 | With those 19 newlines the hint is found. |
| Padding.FinalNewlineDropsHint | pkg/security/identity.go:135-191 | One final newline hides the hint of every spelling, while the ID still parses. |
| LetterCase.PlainAnyCase | pkg/security/identity.go:358-376 | A standard ID in any mix of cases, plain or dashed, reads as the same bytes and shows no hint. |
| LetterCase.RawFromData | pkg/security/identity.go:409-428 | The converter behind the parser drops dashes wherever they stand, ignores case and does not look at the check digits. |
| LetterCase.HintAnyCase | pkg/security/identity.go:174-188 | With a hint, in any mix of cases, the hint is found and the ID read if and only if the hint itself is in upper case; otherwise no hint is found and the ID is rejected. |
| LetterCase.LowerCased | pkg/security/identity.go:344-377 | Lower-cased standard spellings read as the same bytes, except exactly those whose hint has a letter, which are rejected. |
| LetterCase.CompactExact | pkg/security/identity.go:344-358 | A 43-character text reads as some bytes if and only if it is their compact ID, letter case included. |
| DeviceId.ReplacementRejected | pkg/security/identity.go:364-372 | Replacing any one of the 56 characters of a valid ID by another Base32 letter is rejected. |
| DeviceId.SwapRejected | pkg/security/identity.go:364-372 | Swapping two different neighbouring data characters of a group is rejected, except exactly for the pair A and 7. |
| AllowList.VerifyPeer | server.go:440-455 | With a nonempty list and the any-client flag off, a peer is admitted if and only if it has a certificate and some entry is the 56- or 43-character spelling of its hash. |
| AllowList.EntryNamesOne | server.go:449-453 | An entry admits at most one 32-byte hash. |
| AllowList.EntryNamesParsed | server.go:447-453 | An entry that admits a hash is one that DeviceIDFromString reads as that hash. |
| AllowList.EntryNamesSomebody | server.go:447-453 | Which entries admit anybody at all. |
| AllowList.BareSpellingsOnly | server.go:447-453 | Of all spellings of an ID only the bare compact and the undashed standard one admit its owner, and none admits anyone else. |
| Wire.WriteMessage | pkg/protocol/wire.go:45-103 | Whatever the pooled buffers held, an error-free write sends exactly the frame, and a failed one a prefix of it, on both write paths. |
| Wire.ReadMessage | pkg/protocol/wire.go:105-157 | Under any chunking and any pooled contents, the result and the bytes consumed depend on the stream alone. |
| Wire.ReadPooled | pkg/protocol/wire.go:132-152 | The body in fresh memory under any chunking, or a short read with everything consumed; the buffer goes back. |
| Wire.WriteBuffers | pkg/protocol/wire.go:68-103 | Header then body: everything on success, a prefix on an error, an empty body written by the header alone. |
| Wire.FrameReadsBack | pkg/protocol/wire.go:45-157 | A frame reads back as its message, consuming exactly its bytes, if and only if the payload is at most 4 MiB, which the writer does not check. |
| Wire.StreamReadsBack | pkg/protocol/wire.go:45-157 | Any list of messages within the limit is read back as the same list, then a clean end. |
| Wire.CutStreamReads | pkg/protocol/wire.go:45-157 | A stream cut after any byte gives exactly the complete messages, then the error of the cut; it looks like a clean end also when just a header is left. |
| Wire.FrameLayout | pkg/protocol/wire.go:49-57 | Magic number, type and length, big-endian, then the body, byte by byte (specifications.txt:38-46). |
| Wire.ForeignRejected | pkg/protocol/wire.go:105-124 | Bytes are refused for their magic number exactly if they do not begin with 9E 79 BC 40. |
| ByteStreams.ReadFull | pkg/protocol/wire.go:105-157 | The first bytes in order under any chunking, or short with everything consumed. |
| Xdr.XdrBytes | pkg/protocol/wire.go:159-166 | Length, data and zero padding to a multiple of four (section 4.10 of RFC 4506). |
| Xdr.OpaqueReader.ReadOpaque | pkg/protocol/wire.go:169-191 | One field and the shared offset behind its padding, or nothing; never past the end. |
| Xdr.DecodeInvitation | pkg/protocol/wire.go:168-219 | Defined on every input, missing padding and missing trailing words included, and equal to `Decode`. |
| Xdr.DecodeEncode | pkg/protocol/wire.go:159-219 | Decoding inverts the encoding built from `XdrBytes` for every invitation with fields below 2^32 bytes, whatever follows. |
| Xdr.ReencodeDecoded | pkg/protocol/wire.go:159-219 | Re-encoding whatever was decoded, from however sloppy an input, decodes to the same invitation. |
| Xdr.CutDecodes | pkg/protocol/wire.go:168-219 | An encoded invitation cut after any byte fails to decode exactly if the cut is before the last byte of the address, for the field that is short; behind it only a missing port reads as 0 and a missing flag as unset. |
| Xdr.ForeignTail | pkg/protocol/wire.go:205-216 | Whatever two words follow the three fields, the port is the low half of the first and the flag is set exactly for the number 1. |
| Xdr.OpaqueLayout | pkg/protocol/wire.go:159-166 | Opaque data byte by byte (section 4.10 of RFC 4506). |
| Xdr.InvitationLayout | pkg/protocol/wire.go:193-216 | An invitation byte by byte (specifications.txt:60). |
| Copy.CopyLoop | pkg/network/copy.go:27-60 | The loop is a run of the state machine; what was written is a prefix of what the source had, all of it when no write failed, and the write side ends closed. |
| Copy.RunsFaithful | pkg/network/copy.go:27-64 | At every moment of every run the destination has a prefix of what the source delivered, lacking at most the chunk in flight unless a write failed, and nothing follows the closing. |
| CopyPair.Outcome | pkg/network/copy.go:23-64 | A finished direction without write error is complete if the other loop closes only the write side of the connection it reads; otherwise it lacks exactly what had not been read when that connection was cut off, at once or later. |
| CopyPair.NothingAfterCut | pkg/network/copy.go:54-58 | A loop whose source was cut off after the other loop's close delivers nothing more. |
| CopyPair.CompleteIff | pkg/network/copy.go:23-64 | All exchanges that finish without a write error are complete in both directions if and only if each connection closes its write side alone or has nothing to deliver. |
| CopyPair.LosingRun | pkg/network/copy.go:54-58 | Otherwise a run that loses bytes, for every such pair of inputs. |
| CopyPair.TunnelOneWay | client.go:270-271 | With a stream that is cut off some time after its close (helpers.go:70) and a TCP connection, what goes into the stream always arrives, and both directions are sure to be complete if and only if nothing comes out of it. |
| RelayScan.RunSafe | client.go:460-557 | In every state of every interleaving: no send on the closed channel, the default branch never taken, at most 50 probes, only the winner's connection outlives its worker, the connection returned is the winner's and open, the scan is cancelled once the winner is through or it returns, and "not found" only if nobody connected and, unless cancelled, every relay was probed and failed. |
| RelayScan.OthersClosed | client.go:522-540 | Once the wait group is empty, every connection but the winner's is closed. |
| RelayScan.WinnerStays | client.go:522-536 | Whoever wins the flag stays the winner for the rest of the run. |
| RelayScan.OneWin | client.go:522-536 | No run has two wins. |
| RelayScan.NothingNewAfterWin | client.go:477-501 | Once somebody has won, no probe and no worker is begun. |
| RelayScan.WaitersCanLeave | client.go:491-495 | Once the scan has an outcome or the context is done, a worker that waits for a slot can leave without taking one. |
| RelayScan.RunsAreFinite | client.go:460-557 | No run has more than eleven steps per relay and five more. |
| RelayScan.NeverStuck | client.go:460-557 | Until the scan has returned, some step other than an outside cancellation is possible. |
| RelayScan.StepInv | client.go:477-545 | Every step keeps the counters, the race and each worker's connection in order. |
| SessionManager.RunSafe | client.go:279-321 | In every state of every run: each generation names one session and no two the same, every pair returned agrees with that, at most one session and one connection are open, and a writer excludes everybody else. |
| SessionManager.LiveSessionsEnd | client.go:954-975 | The client ends a live session in no other way than by invalidating the very generation that names it. |
| SessionManager.InvalidateEnds | client.go:954-975 | Invalidating the current generation leaves no session or connection installed or open, and the session it named is never handed out again. |
| SessionManager.HandsOut | client.go:279-321 | A call hands out the installed session, open at that moment, with its generation, or the one just made, which nobody had before, as the next; nothing else hands out anything. |
| SessionManager.OnlyMissesGoOn | client.go:279-312 | A caller goes on to the write lock, and a writer to closing and replacing, only when no session is both installed and open. |
| SessionManager.FailureEndsCall | client.go:302-312 | A call that cannot establish a session ends with the lock free, nothing installed or open, and generations and names as they were. |
| SessionManager.RetiredStays | client.go:279-321 | A session that is neither installed nor about to be is never handed out again. |
| SessionManager.GenerationsGrow | client.go:279-321 | Generations rise by exactly one with each installed session, and names never change. |
| SessionManager.NeverStuck | client.go:279-321 | While some caller is in a call, some call can go on without anything from outside. |
| SessionManager.StepInv | client.go:279-321 | Every step of every caller keeps the lock discipline and the meaning of the fields in each phase. |
| Handshake.ConnectToKnownRelay | client.go:746-952 | The known-relay path on any sequence of messages and failures: outcome, chosen key and Pongs. |
| Handshake.TryRelayAndConnect | client.go:559-732 | The same for the scan path with its two loops. |
| Handshake.AwaitJoinReply | client.go:602-628 | The loop before the join reply answers each Ping and stops at the first other message. |
| Handshake.AwaitInvitation | client.go:635-690 | The loop after it answers each Ping and stops at the first telling message. |
| Handshake.ScanIsKnownAfterPings | client.go:601-732 | The scan path does what the known-relay path would do once leading Pings are taken away, and answers those as well. |
| Handshake.KnownVersusScan | client.go:746-844 | The known-relay path succeeds if and only if the scan path does, the certificate passes and no Ping precedes the join reply; then outcome, key, endpoint and Pongs are the same. |
| Handshake.JoinsFirstInvitation | client.go:634-732 | A key is joined if and only if it is that of the first telling message, an invitation from the target, and the relay accepted it. |
| Handshake.KnownJoins | client.go:746-844 | The known-relay path ends with this key at this endpoint if and only if every step succeeds, the relay's first message accepts the join, and after messages that may be passed over comes an invitation from the target with this key, port and address, where an empty or unspecified address stands for the relay's own host. |
| Handshake.ScanJoins | client.go:601-732 | The scan path does if and only if the same holds after any number of Pings, whatever the certificate. |
| Handshake.NegotiatedJoins | client.go:634-732 | The common part of both. |
| Handshake.WholeExchange | client.go:746-844 | One exchange spelled out in message types and bytes: one Pong, and the target's invitation is joined. |
| Establish.Client.NewClient | client.go:54-107 | Fails exactly on an ID that the parser rejects once its hint is gone or on an unparsable relay; the configured relay wins over the hint in the ID, only a configured one is fixed, and the target and relay fields are those of `Choice`. |
| Establish.WrittenRelayChosen | client.go:57-74 | The relay written into a target ID is the one a client made by NewClient begins with exactly without white space around the ID, or with those 19 newlines; otherwise the ID is refused or the relay dropped, never replaced by another ID or relay. |
| Establish.FinalNewlineDropsRelay | client.go:57-74 | A final newline alone costs the relay. |
| Establish.DialContext | helpers.go:123-136 | For every target ID the relay is the configured or the discovered one and fixed, never the hinted one, and the session is established without a scan. |
| Establish.ConfiguredChoice | client.go:57-74 | A configured relay hides the one in the ID and changes nothing else. |
| Establish.Client.EstablishNewSession | client.go:323-391 | Terminates within three known-relay attempts, one scan and one nested call. It is established whenever an attempt works before the context is done, cancelled only when it is, and after three failures fails in the handshake, fails to connect or scans as the third one and the relay demand; the new relay fields are fixed for every outcome, a fixed relay keeps its URI, its missing-URI branch is never taken, and a tunnel connection stays open exactly on success. |
| Establish.DecisiveMeaning | client.go:344-388 | Which attempt decides: the first that works or finds the context done; failures of either kind are retried. |
| Establish.Reconnect | client.go:323-391 | After any number of calls a configured relay is still the one configured. |
| ServerSession.AdvertisedReads | server.go:200-227 | The ID the server advertises is read by clients as its own, with the relay it joined, exactly when the packed address fits; otherwise they reject it. |
| ServerSession.AdvertisedNamesRelay | server.go:200-227 | The relay a client finds in the advertised ID is byte for byte the IPv4 address, handed over in 16 bytes, and the port that the server's relay resolved to. |
| ServerSession.AdvertisedNamesV6Relay | server.go:200-227 | The same for IPv6. |
| ServerSession.RunSession | server.go:165-197 | Over any chunking, the loop handles all messages up to the read error, up to the first RelayFull, or fewer on cancellation; it starts a tunnel for exactly the decodable invitations among them, in order, and sends one Pong per Ping. |
| ServerSession.AnnouncedAreStarted | server.go:183-191 | Invitations that a relay encodes, frames and sends are exactly the tunnels started. |
| ServerSession.PongBytes | server.go:180-181 | A Pong byte by byte. |
| ServerStreams.RunSafe | server.go:336-373 | In every state of every run: tokens out equal running handlers, at most 1024; the counter is waiting plus running plus released streams; OnConnect and OnDisconnect of an ended tunnel match. |
| ServerStreams.StepInv | server.go:336-373 | Every step keeps tokens, counter and callbacks in order. |
| ServerStreams.AllOver | server.go:357-366 | When all tunnels and handlers have ended, no token is out and the counter is zero. |
| ServerStreams.NeverBlocked | server.go:345-373 | A tunnel can always make a step, or waits while 1024 handlers run, any of which can finish. |
| ServerStreams.CancelledTunnelsLeave | server.go:345-371 | After a cancellation a tunnel takes no further stream, and one that waits may give up. |
| ServerStreams.WaitingAreAdmitted | server.go:357-371 | Without a cancellation a stream that waits for a slot is not dropped: it can only be admitted, below 1024 running handlers, and is then handled. |
| Deadline.DiscoverFromUrls | pkg/relay/discovery.go:296-321 | The loop over endpoints offers exactly `Offers` and stops at the first that answers. |
| Deadline.SharesNeverShrink | pkg/relay/discovery.go:400-426 | With a unit per endpoint and no attempt over its timeout, every timeout is positive and none is smaller than an earlier one. |
| Deadline.OfferWithinBudget | pkg/relay/discovery.go:400-426 | Time spent plus the timeout now offered never exceeds the budget, however endpoints behave. |
| Deadline.SumFits | pkg/relay/discovery.go:400-426 | The offered timeouts sum to at most the budget for all behaviours if and only if there is one endpoint or the budget, to one unit, covers the full request timeout of each. |
| Deadline.SumOverruns | pkg/relay/discovery.go:400-426 | Ten seconds, two endpoints, the first failing at once: five and then ten seconds are offered. |
| Deadline.NoDeadline | pkg/relay/discovery.go:405-410 | Without a deadline every endpoint tried is given ten seconds. |
| Deadline.ExactShare | pkg/relay/discovery.go:412-426 | With one: ten seconds or the equal part of what is left, whichever is less, all that is left if that part is below one unit, and none past the deadline. |
| Deadline.NextTried | pkg/relay/discovery.go:306-319 | Another endpoint is tried exactly if there is one, the last did not answer, and neither the caller nor the deadline ended the search. |
| PreFilter.ProbeRound | pkg/relay/discovery.go:553-594 | One round of concurrent probes, starting and ending in any order with never more at once than slots: no relay is lost or probed twice, and no slot stays taken. |
| PreFilter.Advance | pkg/relay/discovery.go:558-588 | One event of a round: a goroutine gets a slot, gives up under a cancelled context, or ends. |
| PreFilter.TcpPreFilter | pkg/relay/discovery.go:519-613 | At most four rounds with timeouts t, 2t, 4t, 8t; only failed relays are retried, and only while fewer than ten and fewer than topN were reached; uncancelled, no relay is lost and an early end means enough or all reached; the result is the fastest in order, topN of them if 0 < topN < those reached, else all reached. |
| PreFilter.SucceedsOnce | pkg/relay/discovery.go:533-594 | No relay succeeds twice. |
| PreFilter.KeptDistinct | pkg/relay/discovery.go:599-612 | The relays kept are different ones, all of them reached. |
| PreFilter.CountsByTopN | pkg/relay/discovery.go:523-525 | What topN means for the number kept, for retries and for an early end, whatever its value. |
| PreFilter.ReachedAtMost | pkg/relay/discovery.go:533-594 | No more are reached than there are, and if as many, all are. |
| PreFilter.TimeoutsUsed | pkg/relay/discovery.go:541-556 | The timeout of a probe is t, 2t, 4t or 8t by its round. |
| Sorting.SortBy | pkg/relay/discovery.go:599-602 | A sorted rearrangement. |
| Latency.TestLatency | pkg/relay/discovery.go:705-745 | Succeeds exactly when the first probe was taken and succeeded and the latency measured last was not 0; then the latency is the least measured after the last 0, and with the jitter added the greatest of all. |
| Latency.LeastUnlessZero | pkg/relay/discovery.go:728-734 | The reported latency is the least of all measured if and only if none was 0. |
| Latency.ReportsOneThing | pkg/relay/discovery.go:705-745 | That description leaves no choice of the result. |
| Latency.ZeroLosesRelay | pkg/relay/discovery.go:729-739 | Measuring 5 and then 0 reports the relay as unreachable. |
| Latency.ZeroForgotten | pkg/relay/discovery.go:729-745 | Measuring 5, 0 and 7 reports latency 7 and no jitter. |
| Selection.RunSafe | pkg/relay/discovery.go:838-919 | In every interleaving: the best latency is the least of those available, reports strictly decrease, tests respect the limit, the counter counts the tests that ended, each success is listed once and nothing else is, and there is at most one early stop, with enough tests and a good enough success. |
| Selection.StepInv | pkg/relay/discovery.go:841-919 | Every step keeps the best-so-far, the early stop, the list and the slots in order. |
| Selection.NothingSkipped | pkg/relay/discovery.go:838-921 | With neither cancellation nor early stop, every relay has been tested and every success is listed. |
| Selection.StopsWhen | pkg/relay/discovery.go:901-916 | The early stop fires exactly when a result is recorded with early stopping on, enough tests counted, enough time passed and some available relay within the limit, and cancels the tests. |
| Selection.NoTestAfterStop | pkg/relay/discovery.go:844-863 | Once it has fired, no test is begun. |
| Selection.WaitersCanLeave | pkg/relay/discovery.go:864-868 | Once it has fired or the context is done, a worker that waits for a slot can leave without taking one. |
| Selection.RunsAreFinite | pkg/relay/discovery.go:838-921 | No run has more than eight steps per relay and one more. |
| Selection.NeverStuck | pkg/relay/discovery.go:838-921 | Until every worker is gone, some step other than an outside cancellation is possible, so the end of the wait group is reached. |
| Selection.EarlyStopSucceeds | pkg/relay/discovery.go:901-931 | A run in which the early stop fired does not end in an error. |
| Selection.Conclude | pkg/relay/discovery.go:923-943 | Errors exactly when cancelled without early stop or nothing is available; else min(n, available) relays, none left out that is better, where a relay comes first if its latency exceeds the other's by no more than twice what its jitter falls short (discovery.go:95-97). |
| Discovery.TestAllAndSort | pkg/relay/discovery.go:803-944 | Both phases together, for any truth about the relays and any interleaving: the candidates are the pre-filter's fastest, topN of them if more were reached, or each of the relays if it keeps none; every answer names different candidates with what is true of them, by score; with neither cancellation nor early stop it succeeds if and only if some candidate passes, with the best n of them. |
| Discovery.RunTests | pkg/relay/discovery.go:838-921 | Every interleaving is a run to its end, and records only what is true or, once cancelled, a failure. |
| Discovery.UndisturbedAnswer | pkg/relay/discovery.go:921-943 | Without disturbance the answer is the best n candidates that pass, an error if none does. |
| Discovery.AnswerHonest | pkg/relay/discovery.go:921-943 | No answer, disturbed or not, names a relay twice, out of order, or with anything untrue. |

## Left out

- Luhn.SwapDetected: nothing is claimed about swaps across a check digit; with A and 7 they are the limits of the method.
- Base32.DecodeEncode: the library decoder is modelled on unpadded alphabet text; its strictness about leftover bits matters to none of the proofs.
- Text.ToUpper: ASCII only, and so is the white space that trimming and `Padding` speak of; other letters are outside every spelling the code writes.
- RelayScan.RunSafe: when the caller's context ends during the scan, a winner may be left in the channel with its connection open; nothing is claimed about it.
- RelayScan.NeverStuck: a probe is taken to end at some time; dialing and TLS, which bound it, are not modelled.
- SessionManager.RunSafe: the generation is an unbounded number; wrapping after 2^64 sessions is not modelled, nor is OnTunnelLost, which may be called twice for one generation.
- Handshake.ConnectToKnownRelay: the certificate check is one arbitrary outcome, and deadlines and the closing of connections are left out; the scan path does not compare the relay's certificate at all.
- Establish.Client.EstablishNewSession: what each attempt, the scan and parseRelayURI yield is a parameter; that listed relays have a nonempty URI comes from discovery.go:443. The URI made of a hint is kept as its address and port, since their formatting is the library's.
- Establish.DialContext: which relay is discovered is a parameter, and opening the stream is left out.
- Selection.RunSafe: the clock behind the minimal test duration is an arbitrary yes or no, and positions stand for relays.
- Sorting.SortBy: stands for the library sort; only its being a sorted rearrangement is used.
- PreFilter.ProbeRound: a probe gives its slot back and records its result in one step; the 64-bit overflow of a multiplied timeout is not modelled.
- Deadline.SharesNeverShrink: time passes only inside attempts.
- Copy.CopyLoop: closing the destination is one operation here; what a full close does to the other loop is in `CopyPair`. Writers that report a short or negative count without an error are covered by the steps of `Copy.RunsFaithful`, and the buffer pool is a buffer of any contents.
- CopyPair.CompleteIff: when a stream is cut off is left open, any time after its close; the 30 seconds are not modelled. Bytes that are still read after the cut-off count as read before it.
- Wire.WriteBuffers: stands for both ways of sending a large message, and the header buffer is put back after both writes, where the code puts it back between them on a writer that is not a connection.
- Certificates, SHA-256, Ed25519, TLS and yamux: a hash is any 32 bytes, a session an object that is open or closed.
- Dialing, DNS, URL parsing, HTTP discovery and its JSON, socket options, Android detection: their results are arbitrary.
- The shuffle of the relay list and the relay cache: the scan works on any list, in any order.
- Logging, callbacks other than those named, error texts beyond telling errors apart, the command line, the embedded relay list, and the BEP messages of specifications.txt, which the repository does not implement.
- The server's outer loop, which repeats a session after a delay; PEM files and key generation, which are library calls.
