# reSIProcate: TURN server, STUN codec and RELOAD overlay, modelled and proved

This project models three parts of the reSIProcate repository in Dafny and proves what they promise.

**The STUN codec** (`Wire`, `Stun`, `StunCodec`, `StunTheorems`, `StunBuffer`, `StunWire`, `StunChecks`). A message keeps its single-valued
attributes in a map from attribute number to value. `Parse` and `Encode` are the pure forms of `stunParseMessage`
and `stunEncodeMessage`; `StunBuffer` holds the loops over arrays, with the two length patches, and proves them equal
to the pure forms. HMAC and CRC-32 are arbitrary functions. `StunWire` says in octets what printer and parser do to every
layout, mask, frame and header; `StunChecks` says which buffers the integrity and fingerprint checks accept and refuse.

**The reTurn TURN server** (`TurnPorts`, `Channels`, `Sockets`, `Allocation`, `TurnHandler`, `TurnServer`,
`TurnTheorems`, `TurnHistory`, `TurnRules`, `TurnRequests`, `UdpCache`). `TurnPorts` is the port map with its circular 16-bit cursor. `Channels`
holds the two lazily purged maps over shared `RemotePeer` objects and the timed one-to-one relation they stand for.
`Allocation` adds permissions and the data path. `TurnHandler` says what each message does to the ports and to one
client; `TurnServer` is the state machine of the whole server, in which any number of allocation managers share the
ports, and timer callbacks run in any order and arbitrarily late; `TurnTheorems` proves what holds over every run.
`TurnRules` says, message by message, which port states change, which response code is given, and what stays as it is.
`TurnRequests` is `RequestHandler` and `TurnAllocationManager` over heap objects, proved equal to `TurnHandler`.
`UdpCache` is the retransmission cache in front; `Sockets` is the send queue and the framed reader for TCP.

**The RELOAD/Chord overlay** (`Reload`, `ReloadStreams`, `ReloadStructs`, `ReloadWire`, `Overlay`, `Chord`). The repository's
coders are generated from a schema; here one schema value stands for one generated class. `Reload` gives the pure
length-prefixed form and the decoder, and decides exactly which values round-trip; `ReloadStreams` is the encoder that
writes zeros and seeks back to patch lengths, the decoder that consumes streams octet by octet, and the copy
constructor; `ReloadStructs` holds the schemas of the real structures and `ReloadWire` their octets. `Overlay` is the forwarding loop, the hop
limit, via lists and the way back; `Chord` is the choice of the next hop.

`TurnHistory` follows one allocation through a run of the whole server: who gave which permission, and that what is
relayed is decided by the allocation's own history.

Assumptions. The relay port range has an even minimum of at least 2 and an odd maximum (reTurn/ReTurnConfig.cxx:52-53).
The clock does not go backwards, and one operation sees one time. The server has one io_service thread. The protocols
are RFC 5389 (sections 6, 7.3 and 15), RFC 5766 (sections 6 to 11) and RFC 6940 (sections 6.1 to 6.3).

Where the code differs from what one would expect, the code is followed and the difference is proved:

- The printer does not check an error reason's length, the parser does: `RoundTripExactlyWhenReasonFits`.
- An UNKNOWN-ATTRIBUTES list of odd length leaves two octets of the buffer unwritten, so printing is a function of the
  message exactly when there is none: `PrintingIsDeterminedExactlyWhenNoGap`. The servers print into cleared buffers,
  where the octets are determined: `PrintMessage`.
- A permission refreshed by CreatePermission outlives its channel binding: `PermissionOutlivesBinding`.
- Padding after a ChannelData message in a datagram is sent on to the peer: `PaddingIsForwarded`.
- Over TCP a ChannelData message without payload closes the connection: `EmptyChannelDataCloses`. A STUN length near
  65535 wraps in 16 bits: `StunLengthExactlyWhenSmall`. What the reader recovers is decided by each send alone:
  `SendAll`.
- Expiry compares whole seconds, so an older callback that runs within the last second of a refreshed lifetime removes
  the allocation early: `CallbackRemovesExactlyWhen` says exactly when, `EarlyRemoval` is such a run.
- An acceptable allocate request whose relay does not come up ends in a 500 and keeps its port in use for good:
  `LeaksExactlyWhen` says exactly which requests do, `LeakedForGood` that nothing ever frees the port,
  `FirstRequestLeaks` is such a request. A failed pair request still carries a reservation token, of value 1:
  `PairIsReserved`.
- A list directly behind its structure's own length is written there but read from behind the structure, so array and
  dictionary specifiers and SIP registration routes never round-trip: `RoundTripExactlyWhen`, `EmptyRouteThrows`.
- A request delivered on the node that sent it cannot be answered over its via list: `ResponseGetsThroughExactlyWhenVias`
  gives the exact condition, `SelfAddressedCrashes` such a request.

## Model

| member | source | states |
|---|---|---|
| `Stun.MaskTwice` | reTurn/StunMessage.cxx:312-330 | XOR-masking an IPv4 or IPv6 address twice with cookie and transaction id gives it back; `StunWire.MaskIsOctetwise` says what the mask is |
| `Stun.ValueReadBack` | reTurn/StunMessage.cxx:370-511 | every well-typed attribute value of every layout reads back from its own payload, up to what the format drops on purpose |
| `StunCodec.ParseJoin` | reTurn/StunMessage.cxx:538-571 | the attribute loop over a concatenation of padded attributes folds them one by one, whatever follows |
| `StunCodec.AcceptedBodyTiles` | reTurn/StunMessage.cxx:538-571 | an accepted body is the concatenation of padded attributes that folding accepts |
| `StunCodec.HeaderFields` | reTurn/StunMessage.cxx:1448-1475 | class, method, length and id of a printed header read back as they were |
| `StunCodec.RoundTrip` | reTurn/StunMessage.cxx:1448-1662 | parsing a printed message gives back every attribute, the peers, the hash and the checksum; REQUESTED-ADDRESS-FAMILY comes back as unknown |
| `StunTheorems.RoundTripExactlyWhenReasonFits` | reTurn/StunMessage.cxx:713-726 | a printed message parses if and only if its error reason is no longer than 763 octets |
| `StunTheorems.SelfVerification` | reTurn/StunMessage.cxx:1635-1661 | for any HMAC and CRC, what was printed under a key passes both checks under that key, with or without fingerprint |
| `StunTheorems.AcceptedBufferTiles` | reTurn/StunMessage.cxx:513-1171 | an accepted buffer tiles in exactly one way; each field is its first occurrence, peers and unknown required numbers are the first eight in order |
| `StunTheorems.TilingUnique` | reTurn/StunMessage.cxx:549-571 | two tilings of one body into padded attributes are the same |
| `StunTheorems.PrintingIsDeterminedExactlyWhenNoGap` | reTurn/StunMessage.cxx:1395-1406 | two printings agree whatever their buffers held, if and only if no UNKNOWN-ATTRIBUTES list has odd length |
| `StunTheorems.DataIndicationFits` | reTurn/TurnAllocation.cxx:274-284 | exact length of an encoded Data indication for either family, never more than payload plus 52 octets |
| `StunBuffer.ParseMessage` | reTurn/StunMessage.cxx:513-1171 | the loop over the received buffer computes the pure parse |
| `StunBuffer.ParsedIntegrity` | reTurn/StunMessage.cxx:698-706 | an accepted message with a hash has 20 octets of it and a hash offset inside the body |
| `StunBuffer.EncodeMessage` | reTurn/StunMessage.cxx:1448-1662 | the write pointer and both length patches leave the pure encoding at the front of the buffer and nothing else changed; from a cleared buffer it depends on the message alone |
| `StunBuffer.PrintMessage` | reTurn/AsyncSocketBase.cxx:171-175 | printed into a new buffer and truncated, the octets are a function of message and key |
| `StunBuffer.CheckMessageIntegrity` | reTurn/StunMessage.cxx:1835-1873 | the verdict is recomputing the hash up to the attribute, by octets in `StunChecks.IntegrityHoldsExactlyWhen`, and the stored buffer ends as it began |
| `StunBuffer.CheckFingerprint` | reTurn/StunMessage.cxx:1875-1897 | the verdict is recomputing the checksum over all but the last eight octets, by octets in `StunChecks.FingerprintHoldsExactlyWhen` |
| `Wire.XorIsBitwise` | reTurn/StunMessage.cxx:317-328 | bit k of an exclusive-or is set if and only if bit k of exactly one operand is |
| `Wire.XorOctets` | reTurn/StunMessage.cxx:317-328 | big-endian numbers are combined octet by octet |
| `StunWire.MaskIsOctetwise` | reTurn/StunMessage.cxx:312-330 | a masked address is, octet by octet, the address exclusive-or 0, 0, 0x21, 0x12 and then the cookie, for IPv6 the cookie and the transaction id |
| `StunWire.ZeroIsMaskedToCookie` | reTurn/StunMessage.cxx:312-330 | address 0 port 0 is masked to the cookie itself, for both families |
| `StunWire.AddressOctets` | reTurn/StunMessage.cxx:1357-1377 | an address is 0, family 1 or 2, port and address octets, highest first |
| `StunWire.PayloadOctets` | reTurn/StunMessage.cxx:1287-1440 | every layout's payload, octet by octet |
| `StunWire.ReadIsPrinted` | reTurn/StunMessage.cxx:370-511 | the parser takes a value if and only if its length and family fit, and what it reads, printed again, is the same octets but for the reserved ones |
| `StunWire.FrameOctets` | reTurn/StunMessage.cxx:1286-1440 | number, length without padding, value, padding to a multiple of four |
| `StunWire.PaddingIsZero` | reTurn/StunMessage.cxx:1317-1440 | padding is zeros, but for the octets skipped after an odd list of unknown attributes |
| `StunWire.HeaderOctets` | reTurn/StunMessage.cxx:1448-1475 | type, length, cookie and transaction id, octet by octet |
| `StunWire.AcceptedHeader` | reTurn/StunMessage.cxx:513-535 | an accepted buffer's length field is the length of its rest, and class, method and id are the bits of its first twenty octets |
| `StunWire.AcceptedIsWellTyped` | reTurn/StunMessage.cxx:513-1171 | whatever the parser accepts, the printer can print |
| `StunWire.RefreshReplyOctets` | reTurn/RequestHandler.cxx:700-713 | a whole success response to a refresh, octet by octet |
| `StunChecks.IntegrityHoldsExactlyWhen` | reTurn/StunMessage.cxx:1835-1873 | for any accepted buffer with a hash the check holds if and only if the hash's 20 octets are the HMAC of the octets before the attribute under the patched length |
| `StunChecks.FingerprintHoldsExactlyWhen` | reTurn/StunMessage.cxx:1875-1897 | for any accepted buffer with a fingerprint the check holds if and only if its value is the checksum of all but the last eight octets, exclusive-or 0x5354554E |
| `StunChecks.OtherKeyHoldsExactlyWhen` | reTurn/StunMessage.cxx:1835-1873 | a message printed under one key is accepted under another if and only if both keys give the same HMAC of what it covers |
| `StunChecks.OtherChecksumHoldsExactlyWhen` | reTurn/StunMessage.cxx:1875-1897 | a printed message is refused if and only if the receiver's checksum of it differs |
| `TurnPorts.CursorStep` | reTurn/TurnManager.cxx:168-198 | one step, or two from an even port, goes to the next place round the range, also where 16 bits wrap |
| `TurnPorts.ScanIsComplete` | reTurn/TurnManager.cxx:33-110 | a scan fails if and only if no suitable port or pair is free; otherwise it finds a free one in range, the nearest after the cursor |
| `TurnPorts.TurnManager.constructor` | reTurn/TurnManager.cxx:14-26 | every port of the range is free, also when the range ends at 65535 |
| `TurnPorts.TurnManager.AllocateAnyPort` | reTurn/TurnManager.cxx:33-46 | the loop ends with the scan's port and pool |
| `TurnPorts.TurnManager.AllocateEven` | reTurn/TurnManager.cxx:48-110 | the even and the pair loop end with the scan's port and pool |
| `TurnPorts.TurnManager.AllocateReserved` | reTurn/TurnManager.cxx:112-136 | granted exactly when the port is in range and reserved |
| `TurnPorts.TurnManager.DeallocatePort` | reTurn/TurnManager.cxx:138-152 | the port is freed, and with an even one the reserved odd one beside it, as `TurnRules.ReleaseFrees` says in port states |
| `Channels.BindLaws` | reTurn/TurnAllocation.cxx:293-330 | binding succeeds if and only if the pair is live or neither side is; then the relation is the old one with that pair lasting 600 seconds from now, and otherwise unchanged; it stays one-to-one |
| `Channels.LiveLater` | reTurn/RemotePeer.cxx:23-31 | pairs that vanished at one moment are gone at every later one |
| `Channels.ChannelManager.FindByChannel` | reTurn/ChannelManager.cxx:68-87 | finds the live peer of a channel; only expired pairs leave the maps, which stay mutual inverses |
| `Channels.ChannelManager.FindByPeer` | reTurn/ChannelManager.cxx:89-107 | the same for a peer's channel |
| `Channels.ChannelManager.CreateChannelBinding` | reTurn/ChannelManager.cxx:52-65 | adds one pair for 600 seconds to both maps |
| `Channels.ChannelManager.RefreshBinding` | reTurn/RemotePeer.cxx:16-20 | refreshing through one map is seen through the other |
| `Channels.ChannelManager.AllIsOneToOne` | reTurn/ChannelManager.cxx:52-107 | mutual inverses stand for a one-to-one relation |
| `Channels.ChannelManager.AddBinding` | reTurn/TurnAllocation.cxx:293-324 | success and the live relation afterwards are those of the eager relation |
| `Allocation.TurnAllocation.ExistsPermission` | reTurn/TurnAllocation.cxx:130-147 | true exactly for a permission not expired; purging changes no live one |
| `Allocation.HostsAreAddresses` | reTurn/TurnAllocation.cxx:130-147 | permissions tell two addresses apart if and only if family or IP differ, whatever the ports |
| `Allocation.TurnAllocation.AddChannelBinding` | reTurn/TurnAllocation.cxx:293-330 | answer and state are those of the eager specification, permission included |
| `Allocation.TurnAllocation.SendOnChannel` | reTurn/TurnAllocation.cxx:178-202 | what is sent, and the live state, are those of the eager specification |
| `Allocation.TurnAllocation.SendDataToPeer` | reTurn/TurnAllocation.cxx:204-240 | data goes to the peer exactly under a live permission, without the frame's four octets |
| `Allocation.TurnAllocation.SendDataToClient` | reTurn/TurnAllocation.cxx:242-291 | dropped, framed on the peer's channel, or printed as a Data indication, as the eager specification says |
| `Allocation.RunAllocation` | reTurn/TurnAllocation.cxx:130-330 | for every sequence of operations at non-decreasing times the lazily purged maps answer as the eager specification |
| `Allocation.PermitsAreGrants` | reTurn/TurnAllocation.cxx:149-170 | after any history a host has permission at t if and only if some operation gave it within the 300 seconds before t |
| `Allocation.BondsAreBinds` | reTurn/TurnAllocation.cxx:293-330 | after any history a pair is bound at t if and only if a successful bind of it happened within the 600 seconds before t |
| `Allocation.ChannelDataCrosses` | reTurn/TurnAllocation.cxx:178-240 | ChannelData reaches a peer if and only if it was bound and permitted in time, with the payload unchanged |
| `Allocation.SentDataCrosses` | reTurn/RequestHandler.cxx:850-881 | a Send indication's data reaches the named peer if and only if it was permitted in time |
| `Allocation.PeerDataCrosses` | reTurn/TurnAllocation.cxx:242-291 | a peer's data is dropped exactly without permission, uses a channel exactly when bound in time, and otherwise becomes an indication that parses back to the same peer and payload |
| `Allocation.IndicationReadsBack` | reTurn/TurnAllocation.cxx:274-286 | parsing an encoded Data indication gives class 0x010, method 7, and exactly that peer and payload |
| `Allocation.RelayIsTransparent` | reTurn/TurnAllocation.cxx:178-330 | after a successful bind and while its permission lasts, whatever else happens, data crosses unchanged both ways between client channel and bound peer |
| `Allocation.PaddingIsForwarded` | reTurn/UdpServer.cxx:155-178 | a ChannelData datagram's payload comes out unchanged if and only if no padding follows it |
| `Allocation.PermissionOutlivesBinding` | reTurn/TurnAllocation.cxx:149-202 | a run in which the channel is silent although the peer has permission |
| `TurnHandler.TakePortKeeps` | reTurn/RequestHandler.cxx:507-560 | any, even, pair and token requests gain one port not in use before, or leave the port map alone, and keep every reserved port odd beside an even one in use |
| `TurnHandler.AllocateAccounts` | reTurn/RequestHandler.cxx:443-628 | an Allocate request gains exactly the new client's port, or the port it leaks, or nothing; a new client's expiry is its timer's lifetime from now |
| `TurnHandler.OwnedAccounts` | reTurn/RequestHandler.cxx:630-848 | refresh, permission and bind requests keep port and credentials; expiry moves only with a timer; removal gives back exactly the port |
| `TurnHandler.ProcessAccounts` | reTurn/RequestHandler.cxx:47-157 | the same for every message of any class and method, whatever the credentials check said |
| `TurnServer.StepSound` | reTurn/TurnAllocationManager.cxx:29-90 | every message, relayed datum, callback, tick and socket loss keeps port ownership, reservations and timer ownership |
| `TurnServer.After` | reTurn/TurnAllocationManager.cxx:29-90 | so every state reachable by any sequence of events has distinct owned ports, paired reservations and one own callback per live allocation |
| `TurnTheorems.PortOwnership` | reTurn/TurnAllocation.cxx:59-81 | in every reachable state live allocations of all managers have distinct ports in range, and the ports in use are exactly theirs and the leaked ones |
| `TurnTheorems.LeaksExactlyWhen` | reTurn/RequestHandler.cxx:443-605 | a port is taken that no allocation then holds, and a 500 answered, if and only if an acceptable allocate request for a new allocation can have its port and its relay does not come up |
| `TurnTheorems.ServerLeaksExactlyWhen` | reTurn/RequestHandler.cxx:581-605 | over the server exactly such a message adds to the leaked ports, one that was not in use and now is; nothing else ever does |
| `TurnTheorems.LeakedForGood` | reTurn/TurnAllocation.cxx:59-67 | after any further events a leaked port is still leaked and in use, and no allocation holds it |
| `TurnTheorems.FirstRequestLeaks` | reTurn/RequestHandler.cxx:581-605 | a plain allocate request whose relay fails to bind leaks a port, as the first event of all |
| `TurnTheorems.ReservedHasPartner` | reTurn/TurnManager.cxx:108-110 | every reserved port is odd and its even neighbour is held by a live allocation or leaked |
| `TurnTheorems.PairIsReserved` | reTurn/RequestHandler.cxx:521-536 | a pair request succeeds if and only if an even and the next port are free; then the token is the next port, which is reserved; otherwise 508 |
| `TurnTheorems.TokenGetsPort` | reTurn/RequestHandler.cxx:538-548 | a token gets exactly its port if and only if that port is reserved; otherwise 508 and nothing changes |
| `TurnTheorems.ReservationIsStable` | reTurn/TurnManager.cxx:138-152 | through every run in which nobody presents the token and the even port stays in use, the odd port stays reserved |
| `TurnTheorems.TokenHolderGetsNextPort` | reTurn/RequestHandler.cxx:516-548 | from a pair allocated at p, after any such run, the token's holder gets p + 1 |
| `TurnTheorems.FreePortIsGranted` | reTurn/RequestHandler.cxx:507-628 | any, even and pair requests succeed if and only if a suitable port is free, and the new client, still without permissions, has one that was |
| `TurnTheorems.StrangersChangeNothing` | reTurn/RequestHandler.cxx:644-663 | a message under other credentials changes neither ports nor allocation |
| `TurnTheorems.OnlyOwnerChanges` | reTurn/RequestHandler.cxx:786-807 | over the server, only messages for its own 5-tuple under its own credentials change an allocation or the end of its lifetime |
| `TurnTheorems.LifetimeIsClamped` | reTurn/RequestHandler.cxx:564-577 | the granted lifetime is the requested one between default and maximum, the default below and the maximum above |
| `TurnTheorems.ChannelBindSucceedsExactlyWhen` | reTurn/RequestHandler.cxx:809-836 | success if and only if a peer and a number in range are named and the pair is live or neither side is |
| `TurnTheorems.CreatePermissionGrants` | reTurn/RequestHandler.cxx:750-773 | success if and only if a peer is named; exactly the named hosts gain 300 seconds, nothing else changes |
| `TurnTheorems.RefreshRemovesExactlyWhenZero` | reTurn/RequestHandler.cxx:665-714 | the owner's refresh removes the allocation and frees its port if and only if it asks for lifetime 0; otherwise the expiry is the granted lifetime from now |
| `TurnHistory.BindingsAreWellFormed` | reTurn/RequestHandler.cxx:811-817 | in every reachable state bindings are one-to-one with numbers between 0x4000 and 0x7FFF |
| `TurnTheorems.GrantSetsEnd` | reTurn/TurnAllocation.cxx:117-128 | a lifetime granted in a reply ends, by the allocation's own callback, exactly that many seconds later |
| `TurnTheorems.RemovedOnlyBy` | reTurn/TurnAllocationManager.cxx:36-45 | an allocation goes only by a due callback for its own 5-tuple at or after its last second, a refresh to zero under its own credentials, or with its socket |
| `TurnTheorems.CallbackRemovesExactlyWhen` | reTurn/TurnAllocationManager.cxx:72-90 | a due callback, stale or not, removes the allocation if and only if the clock reached the second its lifetime ends in; when that is early; the own callback never is |
| `TurnTheorems.EarlyRemoval` | reTurn/TurnAllocationManager.cxx:83-87 | a run in which an older callback removes an allocation 500 ms before its lifetime ends |
| `TurnTheorems.NothingOutlivesItsLifetime` | reTurn/TurnAllocation.cxx:117-128 | once all due callbacks have run, no live allocation is past its lifetime, not even by a millisecond, also when 5-tuples are reused |
| `TurnHistory.HeldIsTheSame` | reTurn/TurnAllocationManager.cxx:29-45 | while a key is never without an allocation it is one allocation, with the same port and credentials |
| `TurnHistory.PermittedExactlyWhenGiven` | reTurn/RequestHandler.cxx:716-848 | in every reachable state a host has permission until t if and only if a request under the allocation's own credentials, answered with success, gave it on this very allocation within the 300 seconds before t |
| `TurnHistory.PeerPermittedExactlyWhenNamed` | reTurn/TurnAllocation.cxx:130-147 | the same in addresses: permission if and only if such a request named a peer of that family and IP, whatever the port |
| `TurnHistory.NothingCrossesUnpermitted` | reTurn/TurnAllocation.cxx:204-258 | in every run, data crosses in either direction only within 300 seconds of a request, answered with success, on this very allocation that named a peer of the far end's family and IP |
| `TurnHistory.RelayIsItsHistory` | reTurn/TurnAllocation.cxx:130-330 | in every reachable state an allocation's permissions and bindings are those of the operations performed on it since it was made |
| `TurnHistory.ServerChannelDataCrosses` | reTurn/RequestHandler.cxx:883-895 | over every run of the server ChannelData reaches a peer if and only if that peer was bound and permitted on this allocation in time, with the payload unchanged |
| `TurnHistory.ServerSentDataCrosses` | reTurn/RequestHandler.cxx:850-881 | over every run data for a named peer reaches it if and only if its host was permitted on this allocation in time |
| `TurnHistory.SendIsRelayed` | reTurn/RequestHandler.cxx:850-881 | an arriving Send indication relays, and leaves behind, what sending its data to the peer named first does |
| `TurnHistory.SendIndicationCrossesExactlyWhen` | reTurn/RequestHandler.cxx:850-881 | over every run an arriving Send indication's data reaches the peer named first if and only if an allocation is there on which that address was named in time; it never gets a reply |
| `TurnHistory.ServerPeerDataCrosses` | reTurn/UdpRelayServer.cxx:63-86 | over every run a peer's data is dropped, sent on its channel, or sent as an indication that reads back, each if and only if this allocation's history says so |
| `TurnHistory.ServerIsTransparent` | reTurn/RequestHandler.cxx:775-848 | after a channel bind answered with success, whatever arrives anywhere in the next 300 seconds, client and bound peer exchange data unchanged in both directions while the allocation is held |
| `TurnRules.ReleaseFrees` | reTurn/TurnManager.cxx:138-152 | a released port is free; only an even port's successor may change with it, from reserved to free |
| `TurnRules.GrantTakes` | reTurn/TurnManager.cxx:33-110 | a grant takes one free port that suits, reserves a pair's successor and changes no other; without one no port changes; where the cursor ends |
| `TurnRules.FirstGrantIsLeast` | reTurn/TurnManager.cxx:14-46 | the first port granted of all is the least of the range |
| `TurnRules.ClaimTakes` | reTurn/TurnManager.cxx:112-136 | a token's claim takes a reserved port and changes no other |
| `TurnRules.TakePortTakes` | reTurn/RequestHandler.cxx:507-560 | every form of request takes one free port, or the one reserved under its token, and changes no other but a pair's successor |
| `TurnRules.RemovalFreesPort` | reTurn/TurnAllocation.cxx:59-81 | whatever removes an allocation, its port is then free for any request, with the odd one reserved beside it; no other port changes |
| `TurnRules.PortMoves` | reTurn/TurnManager.cxx:33-152 | over every event, how a port's state may change and at what; never from taken to reserved |
| `TurnRules.AttributesAreRead` | reTurn/RequestHandler.cxx:443-577 | of a parsed message the handlers see exactly the attributes, numbers and data that the parser read |
| `TurnRules.AllocateAnswers` | reTurn/RequestHandler.cxx:443-628 | 437, 442, 420, 400, 508, 500 and success, each if and only if its condition holds |
| `TurnRules.OwnedAnswers` | reTurn/RequestHandler.cxx:630-848 | 437 without an allocation, 441 under other credentials, otherwise 400 or success |
| `TurnRules.OtherAnswers` | reTurn/RequestHandler.cxx:47-157 | refused credentials, 420, 433, unknown methods, and when there is no answer |
| `TurnRules.FailureChangesNothing` | reTurn/RequestHandler.cxx:47-157 | a message refused or left unanswered changes no port, no allocation and no end of a lifetime; the 500 is the one exception |
| `TurnRules.SocketGoneRemoves` | reTurn/TurnAllocationManager.cxx:36-45 | a lost control connection removes its allocation and no other |
| `TurnRules.LeakedTimer` | reTurn/RequestHandler.cxx:581-605 | after a failed bind no timer is left; after an exception a callback for the slot that nothing cancels |
| `TurnRequests.RequestHandler.AllocatePort` | reTurn/RequestHandler.cxx:507-560 | port, pool and token are the specified ones |
| `TurnRequests.RequestHandler.ProcessAllocate` | reTurn/RequestHandler.cxx:443-628 | reply, ports and new allocation object are the specified ones |
| `TurnRequests.RequestHandler.ProcessRefresh` | reTurn/RequestHandler.cxx:665-714 | reply, ports and expiry are the specified ones |
| `TurnRequests.RequestHandler.ProcessCreatePermission` | reTurn/RequestHandler.cxx:750-773 | every named host is permitted for 300 seconds, in order |
| `TurnRequests.RequestHandler.ProcessChannelBind` | reTurn/RequestHandler.cxx:809-848 | range check, binding and permission are the specified ones |
| `TurnRequests.RequestHandler.ProcessSend` | reTurn/RequestHandler.cxx:850-881 | what is relayed is what is specified |
| `TurnRequests.RequestHandler.ProcessStunMessage` | reTurn/RequestHandler.cxx:47-157 | dispatch on class and method gives the specified effect on ports and on the allocation found |
| `TurnRequests.TurnAllocationManager.Receive` | reTurn/TurnAllocationManager.cxx:29-56 | a message changes the one client under its key as specified and no other client of the manager |
| `TurnRequests.TurnAllocationManager.AllocationExpired` | reTurn/TurnAllocationManager.cxx:72-90 | removes the allocation and frees its port exactly when its last whole second has come |
| `UdpCache.StepCacheSound` | reTurn/UdpServer.cxx:213-238 | every event keeps exactly one clean-up pending for each cached response, due ten seconds after it was stored, and none for anything else |
| `UdpCache.EveryResponseHasItsCleanup` | reTurn/UdpServer.cxx:213-238 | so in every reachable state; and once the due ones have run, no response is ten seconds old |
| `UdpCache.CachedForTenSeconds` | reTurn/UdpServer.cxx:213-238 | through every run, nothing evicts or replaces a response before its ten seconds are over |
| `UdpCache.NothingStale` | reTurn/UdpServer.cxx:228-238 | once due clean-ups have run, no response is ten seconds old |
| `UdpCache.RetransmissionIsIdempotent` | reTurn/UdpServer.cxx:104-152 | a request carrying a cached transaction id within ten seconds leaves the whole server as it is and yields the same octets |
| `UdpCache.SentIsTheReply` | reTurn/UdpServer.cxx:104-152 | what is sent parses to the handlers' own message and passes the integrity check under their key, and under another if and only if its HMAC is the same |
| `UdpCache.UdpServer.HandleNew` | reTurn/UdpServer.cxx:109-137 | a new transaction has the specified effect on ports and its one client, and the handlers' own reply, worded, is remembered exactly when there is one |
| `UdpCache.UdpServer.OnReceive` | reTurn/UdpServer.cxx:98-153 | a cached transaction modifies nothing and is sent its entry again; a new one has the specified effect, and what is sent and remembered is its own reply |
| `Sockets.SendQueue.DoSend` | reTurn/AsyncSocketBase.cxx:54-77 | the item joins the end of the log; a write starts only when none is in progress |
| `Sockets.SendQueue.HandleSend` | reTurn/AsyncSocketBase.cxx:79-111 | the write in progress is the next in order, and the next one starts |
| `Sockets.NextMessage` | reTurn/AsyncTcpSocketBase.cxx:140-180 | header, then announced rest, into the fixed buffer: one message, or waiting, or closing, as specified |
| `Sockets.ReadStream` | reTurn/TcpConnection.cxx:58-134 | the chain of reads computes the deframing of the stream |
| `Sockets.DeframeInvertsExactlyWhen` | reTurn/AsyncTcpSocketBase.cxx:147-180 | a stream of writes is read back as exactly those writes if and only if each announces its own length |
| `Sockets.GoodPrefixIsRead` | reTurn/AsyncTcpSocketBase.cxx:147-180 | the writes before the first that does not are read back whatever follows |
| `Sockets.DeframePrefix` | reTurn/AsyncTcpSocketBase.cxx:140-180 | cutting the stream anywhere delays messages and never changes them |
| `Sockets.StunLengthExactlyWhenSmall` | reTurn/AsyncTcpSocketBase.cxx:161-169 | a STUN header announces the rest of its message if and only if its length field is below 0xFFF0; from there the sum wraps in 16 bits |
| `Sockets.StunDelimits` | reTurn/AsyncTcpSocketBase.cxx:161-172 | every printed STUN message below 4096 octets announces its own length |
| `Sockets.ChannelFrameOctets` | reTurn/AsyncSocketBase.cxx:62-72 | the four octets of a frame: channel and payload length, highest first |
| `Sockets.ChannelDelimits` | reTurn/AsyncSocketBase.cxx:62-72 | ChannelData announces its own length if and only if its number is at least 0x4000, it carries something, and it fits the buffer |
| `Sockets.EmptyChannelDataCloses` | reTurn/TcpConnection.cxx:126-131 | ChannelData without payload closes the connection, whatever follows |
| `Sockets.SendAll` | reTurn/AsyncSocketBase.cxx:54-111 | for any messages and channel sends at all, the reader hands on exactly what was written, in order, if and only if each send fits the buffer and a frame has a channel's number and a payload |
| `Reload.ReadsBack` | p2p/s2c/s2c/gen.c:660-790 | for every schema, a well-sized value without misread lists decodes to itself with every inner octet consumed |
| `Reload.DecTakes` | p2p/s2c/s2c/gen.c:660-790 | whatever decodes is a value of the schema and took exactly as many octets as its encoding has |
| `Reload.NeverReadsBack` | p2p/s2c/s2c/gen.c:690-700 | a value with a list directly behind its structure's own length never decodes to itself |
| `Reload.RoundTripExactlyWhen` | p2p/s2c/s2c/gen.c:690-700 | encode and decode are inverse, leaving the rest alone, if and only if there is no such list in play |
| `ReloadStreams.OutStream.EncodeUInt` | p2p/s2c/s2c/s2c_native.cxx:18-48 | octets from the highest down, at the current position |
| `ReloadStreams.Encode` | p2p/s2c/s2c/gen.c:396-510 | writing with lengths patched afterwards appends the pure length-prefixed form |
| `ReloadStreams.EncodeList` | p2p/MessageStructsGen.cxx:895-906 | zeros, elements and patch are length and elements |
| `ReloadStreams.EncodeAutoLen` | p2p/MessageStructsGen.cxx:468-499 | zeros, rest of the structure and patch are length and rest |
| `ReloadStreams.InStream.DecodeUInt` | p2p/s2c/s2c/s2c_native.cxx:73-153 | the shifted octets are the big-endian number; an exception exactly when the stream is too short |
| `ReloadStreams.InStream.ReadVarray` | p2p/s2c/s2c/s2c_native.cxx:162-188 | the octets behind their length; an exception exactly when the stream is too short |
| `ReloadStreams.Decode` | p2p/MessageStructsGen.cxx:416-466 | consuming the two streams octet by octet gives the pure decoder's value and positions |
| `ReloadStreams.DecodeItems` | p2p/MessageStructsGen.cxx:831-842 | the loop until the end of the cut stream gives the pure list |
| `ReloadStreams.Copy` | p2p/MessageStructsGen.cxx:391-405 | the copy constructor gives an equal structure if and only if no list is misread |
| `ReloadStructs.RoutineRoundTrip` | p2p/MessageStructsGen.cxx:2694-2739 | every well-sized StoreReq, FetchAns, ForwardingHeader, ConnectReqAns, ChordUpdate and Destination reads back as it was |
| `ReloadWire.DestinationOctets` | p2p/MessageStructsGen.cxx:468-499 | a peer, a resource and a compressed destination, octet by octet |
| `ReloadWire.DestinationForms` | p2p/MessageStructs.s2c:47-64 | a destination is one of these three and nothing else |
| `ReloadWire.DestinationFits` | p2p/MessageStructs.s2c:47-64 | every peer, and every name up to 254 octets, is well-sized |
| `ReloadWire.HeaderOctets` | p2p/MessageStructsGen.cxx:865-935 | a forwarding header, field by field |
| `ReloadWire.HeaderFits` | p2p/MessageStructs.s2c:87-102 | a header is well-sized when its numbers and lists fit their fields |
| `ReloadWire.ItemsInOrder` | p2p/MessageStructsGen.cxx:895-906 | a list's elements follow one another in order |
| `ReloadWire.StoredValueOctets` | p2p/MessageStructsGen.cxx:2424-2446 | single value, array entry and dictionary entry, octet by octet |
| `ReloadWire.SignatureOctets` | p2p/MessageStructsGen.cxx:704-720 | algorithms, signer and signature |
| `ReloadWire.StoredDataOctets` | p2p/MessageStructsGen.cxx:2523-2560 | time, lifetime, value and signature behind their length |
| `ReloadWire.StoreOctets` | p2p/MessageStructsGen.cxx:2624-2740 | a store request and what it says of each kind |
| `ReloadWire.FetchOctets` | p2p/MessageStructsGen.cxx:3291-3390 | a fetch answer and what it says of each kind |
| `ReloadWire.ConnectOctets` | p2p/MessageStructsGen.cxx:1726-1760 | a connect request or answer |
| `ReloadWire.UpdateOctets` | p2p/MessageStructsGen.cxx:4095-4170 | the three updates of the ring |
| `ReloadStructs.SpecifierRoundTripsExactlyWhenSingle` | p2p/MessageStructsGen.cxx:3017-3070 | a data specifier round-trips if and only if its model is single value |
| `ReloadStructs.RegistrationRoundTripsExactlyWhenUri` | p2p/MessageStructsGen.cxx:3859-3926 | a SIP registration round-trips if and only if its type is URI |
| `ReloadStructs.EmptyRouteThrows` | p2p/MessageStructsGen.cxx:3890-3916 | the seven octets of the smallest route registration cannot be decoded |
| `Overlay.Message.CopyForwardingData` | p2p/Message.cxx:254-268 | overlay and transaction are copied, the destinations are the vias reversed |
| `Overlay.ForwardingLayer.ForwardMessage` | p2p/ForwardingLayer.cxx:25-113 | the loop ends in exactly one of post, send, drop and failed assertion, with the message as specified |
| `Overlay.FirstForeignDecides` | p2p/ForwardingLayer.cxx:31-113 | own entries at the front do not matter; the first other entry alone decides between post, send, drop and failed assertion |
| `Overlay.ForwardingLayer.SendImpl` | p2p/SelectTransporter.cxx:87-107 | goes out exactly with a hop limit above 1 and a flow to the next node, the limit one lower |
| `Overlay.BoundedForwarding` | p2p/SelectTransporter.cxx:87-107 | in any network, whose tables may change at any time, a message with hop limit t crosses at most t - 1 links, and its journey ends; delivery leaves no destination |
| `Overlay.LinksAreFlows` | p2p/SelectTransporter.cxx:99-107 | every link of a journey is crossed over a flow that its node then has to the next |
| `Overlay.Carry` | p2p/SelectTransporter.cxx:584-590 | forwarding, sending and pushing vias as they run, node after node, make exactly that journey |
| `Overlay.ViasAreThePath` | p2p/SelectTransporter.cxx:584-590 | a delivered message's vias are the nodes it came through in order, and each link cost one hop |
| `Overlay.ResponseFollowsRequestBack` | p2p/Message.cxx:254-268 | if each node on a request's path knows the one before it when the response comes by, the response visits exactly the reversed path, arrives with no destination left, and has hops to spare |
| `Overlay.ConnectedIsReversible` | p2p/ForwardingLayer.cxx:45-62 | where nodes are connected to, and have flows to, one another, every path can be gone back |
| `Overlay.ResponseGetsThroughExactlyWhenVias` | p2p/Message.cxx:431-436 | on such a path the response reaches the sender if and only if the request its responder holds has a via; otherwise an assertion fails |
| `Overlay.SelfAddressedCrashes` | p2p/Message.cxx:431-436 | a request addressed to the node that sends it is delivered there, and its response fails the assertion |
| `Chord.WordOrderIsNumberOrder` | p2p/NodeId.cxx:33-51 | the word-by-word comparisons are the order of the 128-bit numbers |
| `Chord.NumberIsOnTheWire` | p2p/MessageStructsGen.cxx:70-79 | that number is the one its sixteen octets on the wire spell |
| `Chord.ClosestExactlyWhenNoneBetween` | p2p/ChordTopology.cxx:242-272 | closest behind a target means that no finger lies between, going up round the ring |
| `Chord.ChordTopology.IsConnected` | p2p/ChordTopology.cxx:377-387 | a node is directly connected if and only if it is its own closest finger, so that the next hop towards it is itself |
| `Chord.ChordTopology.FindNextHop` | p2p/ChordTopology.cxx:242-272 | the finger returned minimises (target - finger) mod 2^128, wrap included; without fingers, the successor |
| `Chord.ClosestIsUnique` | p2p/ChordTopology.cxx:258-271 | no two fingers are equally close behind a target |

## Left out

- Sockets, asio, TLS, DTLS, SRTP, HTTP, XML-RPC, logging, configuration and start-up: plumbing over other libraries.
- Authentication: nonces, user lookup and password hashing are one verdict per request, together with user name and key.
- Decoration of responses: mapped address, software name, realm, nonce and reason texts; the cache proofs hold for any wording of a reply.
- `UdpCache.UdpServer.OnReceive`: a response longer than the 1024 octets allocated for it is written past the buffer's end by the code; here every wording fits.
- RFC 3489 compatibility: change requests, reflected addresses and answers from an alternate address.
- Memory behind a received buffer: an address whose family octet disagrees with its length is read past the attribute, and past the buffer's end as zeros.
- STUN classes and methods: the header keeps the four class and sixteen method values that the program tells apart, so other bits of the type are not modelled.
- TCP relay ports: allocations are for UDP only, as in the code, so the TCP half of the port maps is not used.
- `allocateOddPort` and unreserved `allocatePort`: not called by the server.
- Channel numbers chosen by `getNextChannelNumber`: client side, and not checked to be free.
- Bandwidth, quotas and Don't Fragment beyond the checks that exist.
- Order of effects inside one operation: a handler's time readings are taken as one.
- `TurnServer.Step`: client state is kept by value and without expired entries; `Allocation.RunAllocation` and `TurnRequests.TurnAllocationManager.Receive` connect it to the heap objects.
- The receive loop of the UDP server before parsing: datagrams of four octets or less, and STUN messages that do not parse, are dropped without effect.
- Failed writes: after an error the queue goes on with the next write while the connection closes; the stream is then undefined.
- List elements that take no octets: the generated decoder reads them for ever; no structure of the repository has any.
- `Reload.Dec`: a failed assertion and an exception are not told apart.
- FetchReq and RemoveReq: they nest data specifiers, and `Reload.RoundTripExactlyWhen` decides them too.
- The overall length field and the signature written by `Message::encodePayload`: host-endian pointer code and a stub signer.
- Neighbour tables, replica sets, joining, leaving and updating in `ChordTopology`: unfinished in the repository. `Overlay` lets every node's tables answer anything.
- `repro`, `media`, `reflow`, `rutil`, the SIP stack: other parts of the repository.
