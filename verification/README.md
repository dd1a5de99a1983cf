# PeerMesh: a verified model

PeerMesh is a small peer-to-peer VPN written in Go. This project models the parts of it that hold state, loops or
arithmetic, and proves what they keep over every run. `dafny verify dfyconfig.toml` checks everything.

| file | what it models |
|---|---|
| `Bytes.dfy`, `Subnets.dfy` | bytes, bitwise operations, addresses as big-endian numbers, the carry loop, contiguous masks |
| `AllocatorSpec.dfy`, `IPAllocator.dfy`, `AllocatorTheorems.dfy` | the address allocator: one step per call on numbers, the mutable class refining it, and the theorems about every run |
| `Manager.dfy` | the VPN manager's local, gateway and peer addresses |
| `Packet.dfy` | the IPv4 header checksum (RFC 1071, RFC 791) and the TTL setter (RFC 1624) |
| `Stun.dfy` | the STUN response parser and its inverse encoders (RFC 5389) |
| `Discovery.dfy`, `DiscoveryServer.dfy`, `DiscoveryClient.dfy` | the discovery protocol: one step per critical section, and the mutable server and client refining the steps |
| `Convergence.dfy`, `OrderMatters.dfy`, `Necessity.dfy` | client convergence, what happens without each of its assumptions, and runs showing that each is needed |
| `Spawning.dfy`, `RegistryTheorems.dfy` | the broadcasts each step spawns, and the registry's ledger and timeliness |
| `Heartbeats.dfy` | what each send puts on each connection, the ledger of pings, and peers that answer them |
| `ConnectionPool.dfy` | the connection pool's capacity and its ledger of sockets |

How the pieces meet: a class keeps the fields the Go struct has; each method's `ensures` equates the new state with a
step function of the old one, whatever order a map iteration takes; the theorems are about runs of those steps.

## What the proofs turned up

Every result is about the program as it is. Where a law one would expect holds only sometimes, a lemma says exactly when
and another shows it failing; some have a small repaired variant, labelled as such, for which the law holds outright.

- **Running out of addresses.** `MeetsLaw` says what an allocation is for: an address of the subnet when a host is free,
  an error when none is, never a foreign address. The scan runs past the broadcast address and comes back only after the
  whole address space, so the law depends on the cursor: `LawFromInside`, `LawFromOutside`, `WholeSpaceMeetsLaw` and
  `LongPrefixNeverScans` together cover every state. A fresh allocator breaks it right after its last usable host
  (`FullSubnetBreaksLaw`); `WrapScan` never does.
- **Long host parts.** With more than 62 host bits the size no longer fits Go's int, and no scan is ever made
  (`ScannableIsShort`, `LongPrefixNeverScans`, `FreshLongPrefixBreaksLaw`).
- **Counting addresses.** A positive count promises a successful allocation unless the size overflowed. With 63 host bits,
  an IPv6 /65, the count's own subtraction wraps to about 9.2e18 and no call succeeds (`CountMisleadsIff`,
  `FreshCountMisleads`).
- **Peers and the gateway.** Nothing reserves the gateway address. The first peer is given exactly that address in every
  subnet but those of two addresses, contrary to what `manager_test.go` asks for (`FirstPeerIsGateway`,
  `GatewayIsKeptIff`).
- **The address in a STUN response.** The decoder's key is 21 21 21 21 and RFC 5389's is 21 12 A4 42: ports come out
  right and addresses never do (`DecodeInvertsIff`, `StandardAddressIsWrong`).
- **Padded attributes.** The walk steps over values as if they were unpadded. What it finds in any bytes is `WalkIsReach`;
  `PaddingBreaksIff` is the condition in terms of the attributes, for one that may need padding.
- **Messages that overtake each other.** Convergence rests on five assumptions about order and writes, each about one
  client and one peer only. `OrderMatters` says what a client ends up with when each is broken; `Necessity` gives, for
  each, a run from the start that breaks it alone and leaves a client wrong.
- **Empty peer lists.** They travel as null and the client refuses them, so a client that reconnects may keep its old
  view (`ListIsTakenIff`, `EmptyListKeepsOldView`).
- **Reconnecting over a broken pool entry.** The old socket is forgotten without being closed. Every socket is accounted
  for exactly on the runs where no Connect replaces a broken entry (`SocketsAccountedIff`, `ReconnectDropsSocket`).

## Model

| member | source | states |
|---|---|---|
| `Subnets.IncrementInPlace` | src/internal/vpn/ipallocator.go:162-167 | the carry loop, in place, leaves the bytes of Inc of the old ones |
| `Subnets.IncAddsOne` | src/internal/vpn/ipallocator.go:158-170 | for every length, the carry loop adds one modulo 256^n |
| `Subnets.SameIPIsSameNumber` | src/internal/vpn/ipallocator.go:173-181 | two addresses, in 4 or 16 bytes, are Equal exactly when their numbers agree |
| `Subnets.MappedForm` | src/internal/vpn/ipallocator.go:173-181 | 16 bytes are the same address as 4 exactly when they are ten 0, two 255 and those 4 |
| `Subnets.PrefixTimesSize` | src/internal/vpn/ipallocator.go:200-203 | a prefix of n bits times the size of the subnet is the size of the family |
| `Subnets.MaskIsInterval` | src/internal/vpn/ipallocator.go:65 | an address matches a masked network exactly when it lies in the 2^h numbers from the network on |
| `Subnets.OrNotIsLast` | src/internal/vpn/ipallocator.go:187-197 | byte-wise OR with the complemented mask is network + 2^h - 1 |
| `Subnets.ContainsIsInside` | src/internal/vpn/ipallocator.go:65-67 | Contains is membership of the interval from network to broadcast, in the same family |
| `Subnets.FirstUsable` | src/internal/vpn/ipallocator.go:23-33 | NewIPAllocator's own copy of the carry loop computes the same Inc |
| `Subnets.SuggestedGateway` | src/internal/vpn/ipallocator.go:206-218 | and so does GetGatewayIP's |
| `IPAllocators.NewIPAllocator` | src/internal/vpn/ipallocator.go:18-42 | a nil subnet is the only error; otherwise the cursor is network + 1 and nothing is allocated |
| `IPAllocators.IPAllocator.constructor` | src/internal/vpn/ipallocator.go:23-41 | the cursor is network + 1 and nothing is allocated |
| `IPAllocators.IPAllocator.IncrementIP` | src/internal/vpn/ipallocator.go:158-170 | the result is the next address on the circle of 256^n and the argument is untouched |
| `IPAllocators.IPAllocator.GetGatewayIP` | src/internal/vpn/ipallocator.go:206-218 | the suggested gateway is the initial cursor |
| `IPAllocators.IPAllocator.GetBroadcastAddress` | src/internal/vpn/ipallocator.go:187-197 | the loop computes the last address of the subnet |
| `IPAllocators.IPAllocator.IsNetworkOrBroadcast` | src/internal/vpn/ipallocator.go:173-184 | true exactly for the two reserved numbers, in either written form |
| `IPAllocators.IPAllocator.FindNextAvailableIP` | src/internal/vpn/ipallocator.go:138-155 | the loop finds what Scan finds, moves the cursor just past it, and changes nothing on failure |
| `IPAllocators.IPAllocator.AllocateIP` | src/internal/vpn/ipallocator.go:45-58 | refines the step Next: state, granted address and failure |
| `IPAllocators.IPAllocator.AllocateSpecificIP` | src/internal/vpn/ipallocator.go:61-80 | refines the step Specific for any byte string, and says exactly when each of the three errors is given |
| `IPAllocators.IPAllocator.ReleaseIP` | src/internal/vpn/ipallocator.go:83-94 | succeeds for any byte string exactly when its number is outstanding, and then gives up that number and nothing else |
| `IPAllocators.IPAllocator.GetAvailableCount` | src/internal/vpn/ipallocator.go:111-120 | the count is the size less the distinct outstanding addresses less two, in 64-bit arithmetic that wraps |
| `AllocatorTheorems.FirstFit` | src/internal/vpn/ipallocator.go:138-155 | the scan returns the free address at least forward distance, and fails exactly when all k addresses are blocked |
| `AllocatorTheorems.MapIsLedger` | src/internal/vpn/ipallocator.go:45-94 | on every run the map holds exactly the addresses granted and not released since |
| `AllocatorTheorems.ReleaseIffOutstanding` | src/internal/vpn/ipallocator.go:83-94 | on every run a release succeeds exactly when the address was granted and not released since; the address can then be asked for again |
| `AllocatorTheorems.SpecificAndReleaseUndo` | src/internal/vpn/ipallocator.go:61-94 | asking for a host and releasing it restores the state exactly when it was not taken, and the other way round |
| `AllocatorTheorems.FailureChangesNothing` | src/internal/vpn/ipallocator.go:45-94 | a call that fails leaves cursor and map alone |
| `AllocatorTheorems.GrantsAreExclusive` | src/internal/vpn/ipallocator.go:45-94 | no address is granted twice without a release in between, and no reserved address ever |
| `AllocatorTheorems.HeldIsNeverGranted` | src/internal/vpn/ipallocator.go:138-155 | an outstanding address that a run never releases is never granted on it |
| `AllocatorTheorems.NoReuseBeforeWrap` | src/internal/vpn/ipallocator.go:138-155 | until the cursor wraps, every later AllocateIP address is above every earlier one, whatever was released |
| `AllocatorTheorems.FewCallsNeverWrap` | src/internal/vpn/ipallocator.go:138-155 | cursor + size x calls below the size of the address space is enough not to wrap |
| `AllocatorTheorems.NoReuseWithinBound` | src/internal/vpn/ipallocator.go:138-155 | so within that many calls no released address is handed out again |
| `AllocatorTheorems.InSubnetIffFreeAhead` | src/internal/vpn/ipallocator.go:138-155 | with the cursor in the subnet, the answer is in the subnet exactly when a free host lies at or above the cursor |
| `AllocatorTheorems.InSubnetFromOutside` | src/internal/vpn/ipallocator.go:138-155 | with the cursor outside, exactly when everything up to the subnet is taken and a free host lies in the rest of the scan |
| `AllocatorTheorems.WholeSpaceMeetsLaw` | src/internal/vpn/ipallocator.go:138-155 | for a /0 every call meets the law |
| `AllocatorTheorems.LawFromInside` | src/internal/vpn/ipallocator.go:44-58 | with the cursor inside, a call meets the law exactly when a free host lies ahead in the subnet, or none is free and the whole scan is blocked |
| `AllocatorTheorems.LawFromOutside` | src/internal/vpn/ipallocator.go:44-58 | with the cursor outside, exactly when the scan gets to a free host past taken addresses only, or none is free and the whole scan is blocked |
| `AllocatorTheorems.LongPrefixNeverScans` | src/internal/vpn/ipallocator.go:200-203 | above 62 host bits every call fails, which meets the law exactly when no host is free |
| `AllocatorTheorems.FreshLongPrefixBreaksLaw` | src/internal/vpn/ipallocator.go:200-203 | a fresh allocator of such a prefix breaks the law |
| `AllocatorTheorems.FreshInOrder` | src/internal/vpn/ipallocator.go:44-58 | the k-th fresh allocation is network + k for k up to 2^h - 2 |
| `AllocatorTheorems.FreshOverflow` | src/internal/vpn/ipallocator.go:138-155 | the next one is broadcast + 1, outside the subnet; a /0 is exhausted instead |
| `AllocatorTheorems.FullSubnetBreaksLaw` | src/internal/vpn/ipallocator.go:49-52 | that call should fail and does not: the law breaks on every subnet short of the whole space |
| `AllocatorTheorems.CountFreeHosts` | src/internal/vpn/ipallocator.go:200-203 | free hosts number 2^h - 2 less the outstanding addresses inside the subnet |
| `AllocatorTheorems.AvailableIsFreeHosts` | src/internal/vpn/ipallocator.go:111-120 | GetAvailableCount is the number of free hosts exactly when no outstanding address is outside the subnet |
| `AllocatorTheorems.PositiveCountSucceeds` | src/internal/vpn/ipallocator.go:45-58 | while GetAvailableCount is positive AllocateIP succeeds, wherever the cursor is, exactly when the size did not overflow |
| `AllocatorTheorems.CountMisleadsIff` | src/internal/vpn/ipallocator.go:111-120 | exactly when the count is positive and AllocateIP fails: 63 host bits and all but a full map, or a map of 2^63 - 1 entries above |
| `AllocatorTheorems.FreshCountMisleads` | src/internal/vpn/ipallocator.go:111-120 | a fresh /65 counts 2^63 - 2 addresses and gives out none |
| `AllocatorTheorems.RepairedLaw` | src/internal/vpn/ipallocator.go:137-155 | a scan that wraps inside the subnet meets the same law at every cursor position |
| `AllocatorTheorems.RepairedAgrees` | src/internal/vpn/ipallocator.go:138-155 | below the end of the subnet the program's scan and the repaired one agree |
| `Managers.NewManager` | src/internal/vpn/manager.go:32-65 | a manager exists exactly when the subnet parses and the configured address is a host of it, or none is configured and the subnet can be scanned; its local address is the configured one or the first host |
| `Managers.ConfiguredSetup` | src/internal/vpn/manager.go:43-65 | what each configuration comes to: accepted or not, local address, gateway network + 1 or network + 2 |
| `Managers.AllocateLocalIP` | src/internal/vpn/manager.go:43-59 | a configured address is taken exactly when it is a free host of the subnet, and is then the answer; with none configured it is the next free one |
| `Managers.SuggestGateway` | src/internal/vpn/manager.go:61-65 | the gateway is network + 1, or the address after the local one when they coincide |
| `Managers.Manager.AllocatePeerIP` | src/internal/vpn/manager.go:163-165 | refines the step Next and keeps the local and gateway addresses |
| `Managers.Manager.ReleasePeerIP` | src/internal/vpn/manager.go:168-170 | refines the step Release and keeps the local and gateway addresses |
| `Managers.PeerIsNeverLocal` | src/internal/vpn/manager_test.go:73-75 | no peer gets the local address on any run that does not release it |
| `Managers.FirstPeerIsGateway` | src/internal/vpn/manager.go:61-65 | the first peer address is the gateway unless the subnet has exactly two addresses |
| `Managers.GatewayIsKeptIff` | src/internal/vpn/manager_test.go:77-79 | no run of peer calls hands out the gateway exactly when the subnet has two addresses |
| `Managers.RepairedGatewayIsKept` | src/internal/vpn/manager_test.go:73-79 | if the gateway is allocated too, no peer gets the local or the gateway address |
| `Packets.Packet.SetTTL` | src/internal/vpn/packet.go:196-205 | only byte 8 changes, and only for 0..255 on at least 9 bytes |
| `Packets.Packet.CalculateChecksum` | src/internal/vpn/packet.go:208-226 | the loops compute Checksum of the old data without uint32 overflow and change only bytes 10-11, to zero |
| `Packets.CarryRound` | src/internal/vpn/packet.go:221-223 | a round of the fold loop shrinks the sum and keeps its ones' complement value |
| `Packets.HeaderSumIsBytes` | src/internal/vpn/packet.go:217-219 | the sum is 256 times the ten bytes at even offsets plus the ten at odd ones |
| `Packets.ChecksumFromBytes` | src/internal/vpn/packet.go:208-226 | the value returned, from the eighteen bytes outside the checksum field |
| `Packets.KnownHeader` | src/internal/vpn/packet.go:208-226 | a well-known header has the checksum B861 |
| `Packets.FoldIsResidue` | src/internal/vpn/packet.go:221-223 | folding maps 0 to 0 and s > 0 to ((s - 1) mod 65535) + 1 |
| `Packets.VerifiesIff` | src/internal/vpn/packet.go:213-225 | a stored word makes the header fold to 0xFFFF exactly when it is the calculated one, or 0xFFFF for a calculated 0 |
| `Packets.ChecksumIsStable` | src/internal/vpn/packet.go:210-211 | recalculating after storing any word, or after calculating, gives the same value |
| `Packets.WordUpdateIsIncremental` | src/internal/vpn/packet.go:208-226 | changing any word but the checksum moves the sum by the difference; the checksum then changes by equation 3 of RFC 1624 exactly when the new header is not all zero |
| `Packets.TTLUpdateIsIncremental` | src/internal/vpn/packet.go:196-226 | the same for SetTTL followed by CalculateChecksum |
| `Packets.ParsedTTLUpdate` | src/internal/vpn/packet.go:84-87 | hence always for a header whose first byte is not zero |
| `Stun.ParseSTUNResponse` | src/internal/peer/nat_traversal.go:129-157 | for every byte string the loop ends, stays in bounds and computes Parse |
| `Stun.ParseXORMappedAddress` | src/internal/peer/nat_traversal.go:160-183 | computes DecodeWith for the key of four 0x21 bytes |
| `Stun.DecodedBytes` | src/internal/peer/nat_traversal.go:160-183 | for every value: the two errors, the port bytes XORed with 21 and 12, the address bytes each with 21 |
| `Stun.EncodedBytes` | src/internal/peer/nat_traversal.go:118-119 | the standard encoding XORs port and address with the cookie 21 12 A4 42 |
| `Stun.WalkIsReach` | src/internal/peer/nat_traversal.go:139-154 | the walk finds an offset exactly when it ends a path of whole steps from 20 with no earlier 0x0020 |
| `Stun.ParseSucceedsIff` | src/internal/peer/nat_traversal.go:129-157 | exactly when parsing succeeds |
| `Stun.ParseErrors` | src/internal/peer/nat_traversal.go:129-157 | exactly which responses are too short, of another type, or without the attribute |
| `Stun.UsualResponse` | src/internal/peer/nat_traversal.go:129-157 | the parsed address and port of a response with one attribute of type 0020, byte by byte |
| `Stun.ParseDecodesFirst` | src/internal/peer/nat_traversal.go:144-150 | what is decoded is the first reachable attribute's value, or an error if it is cut short |
| `Stun.ListRoundTrip` | src/internal/peer/nat_traversal.go:129-157 | parsing undoes encoding of any attribute list in the walk's framing, whatever follows |
| `Stun.PaddedRoundTrip` | src/internal/peer/nat_traversal.go:153 | the same for the padding of RFC 5389 when all earlier lengths are multiples of 4 |
| `Stun.PaddingBreaksIff` | src/internal/peer/nat_traversal.go:153 | when only the last earlier attribute may be padded, the address is found exactly when it needs none |
| `Stun.PaddingCanResync` | src/internal/peer/nat_traversal.go:153 | in longer lists the multiple of 4 is not necessary: a list where the walk falls back into step |
| `Stun.DecodeInvertsIff` | src/internal/peer/nat_traversal.go:170-182 | decoding inverts encoding exactly when both use the same key; the port always survives |
| `Stun.StandardAddressIsWrong` | src/internal/peer/nat_traversal.go:172-175 | a standard response always decodes to the address XORed with 00 33 85 63, never to the address |
| `Stun.RepairedRoundTrip` | src/internal/peer/nat_traversal.go:119 | decoding with the cookie of the request inverts the encoding of RFC 5389 |
| `Stun.CreateSTUNRequest` | src/internal/peer/nat_traversal.go:114-126 | the 20 bytes of the request |
| `DiscoveryServer.Server.AddPeer` | src/internal/discovery/server.go:267-269 | refines Register |
| `DiscoveryServer.Server.SendPeerList` | src/internal/discovery/server.go:309-332 | the loop writes the list of all online peers to the one connection, or the write fails and nothing changes |
| `DiscoveryServer.Server.BroadcastMessage` | src/internal/discovery/server.go:363-382 | the loop writes one copy per online peer, in whatever order the map is met, skipping those whose write fails |
| `DiscoveryServer.Server.HandleRegister` | src/internal/discovery/server.go:223-284 | register, list, join broadcast in sequence; a malformed payload changes nothing; after a failed list write nothing is broadcast |
| `DiscoveryServer.HandlerIsFourSteps` | src/internal/discovery/server.go:267-281 | that sequence, and its cut-short form, are steps of the protocol |
| `DiscoveryServer.Server.RemovePeer` | src/internal/discovery/server.go:385-403 | removes one entry of the connection and owes its peer_left; the empty id is never removed |
| `DiscoveryServer.Server.UpdatePeerLastSeen` | src/internal/discovery/server.go:406-417 | refreshes one entry of the connection |
| `DiscoveryServer.Server.CleanupDeadPeers` | src/internal/discovery/server.go:470-492 | collect-then-delete removes exactly the dead, each once, and owes one peer_left for each |
| `DiscoveryServer.Server.SendHeartbeats` | src/internal/discovery/server.go:432-455 | pings every online peer and takes offline those whose write fails |
| `Heartbeats.HeartbeatDelivers` | src/internal/discovery/server.go:432-455 | each connection gets one ping behind what is on it for every online entry it holds whose write does not fail; exactly the failed entries go offline |
| `Heartbeats.BroadcastDelivers` | src/internal/discovery/server.go:363-382 | the same for a broadcast and its message |
| `Heartbeats.ListTellsRegistry` | src/internal/discovery/server.go:310-317 | a list tells of every peer what the registry says when it is taken |
| `Heartbeats.CloseEndsRegistration` | src/internal/discovery/server.go:385-403 | closing a peer's own connection removes its entry and no other and owes its peer_left; the empty id stays |
| `DiscoveryClient.Client.HandlePeerList` | src/internal/discovery/client.go:271-314 | the loop replaces the view by the list, skipping non-objects; a null list is refused, a missing field panics |
| `DiscoveryClient.LastElementCounts` | src/internal/discovery/client.go:285-311 | of several list elements with one id the last counts |
| `DiscoveryClient.Client.HandlePeerJoined` | src/internal/discovery/client.go:316-344 | refines Apply; a payload that is no object is refused and one without its fields panics, the view untouched |
| `DiscoveryClient.Client.HandlePeerLeft` | src/internal/discovery/client.go:346-362 | refines Apply; an unknown peer is ignored, a malformed payload changes nothing |
| `Convergence.LastWriterWins` | src/internal/discovery/client.go:285-360 | after any messages a peer's status is what the last message about it left |
| `Convergence.InterleavingIsIrrelevant` | src/internal/discovery/client.go:285-360 | two deliveries with the same messages about each peer, in the same order per peer, leave equal views |
| `Convergence.DeltasCommute` | src/internal/discovery/client.go:338-360 | messages about different peers commute on the whole view |
| `Convergence.NewsIsLocal` | src/internal/discovery/client.go:316-362 | a peer_joined or peer_left changes its own peer only; peer_left keeps the peer and its info |
| `Convergence.PeersAreRemembered` | src/internal/discovery/client.go:316-362 | without a new list a client forgets no peer and keeps the info it was last told |
| `Convergence.StepKeepsInv` | src/internal/discovery/server.go:267-492 | every step that is orderly for one client and one peer keeps the invariant about them |
| `Convergence.ClientsConverge` | src/internal/discovery/server.go:267-492 | on every run that is orderly for client k and peer id alone, k, listed and registered, replays its outstanding messages to what the registry says of id, info included, whatever view it kept from before |
| `Convergence.QuiescentViewIsRegistry` | src/internal/discovery/client.go:285-360 | with nothing outstanding its online peers are exactly the registry's keys |
| `OrderMatters.AnySendingOrder` | src/internal/discovery/server.go:401 | in whatever order the owed broadcasts about a peer are sent, a client ends up agreeing exactly when the last sent says what the newest says |
| `OrderMatters.LateList` | src/internal/discovery/server.go:310-331 | a list written after newer news went out: the client agrees exactly when the news left the peer as the list had it |
| `OrderMatters.ListIsTakenIff` | src/internal/discovery/client.go:271-283 | a list leaves the client with exactly the list's peers if and only if it is not empty or the client took nobody to be online |
| `Necessity.EmptyListKeepsOldView` | src/internal/discovery/client.go:242-283 | a run from the start where a reconnected client keeps a peer online that the registry does not know |
| `OrderMatters.FailedHeartbeat` | src/internal/discovery/server.go:446-453 | a client that agreed about a peer still does exactly when that peer's ping did not fail |
| `OrderMatters.FailedList` | src/internal/discovery/server.go:273-276 | after a failed list write other clients agree exactly when the peer was already registered with the same info |
| `OrderMatters.FailedBroadcast` | src/internal/discovery/server.go:374-377 | a client that misses the only broadcast owed about a peer stays right exactly when it already knew |
| `Necessity.EachAssumptionIsNeeded` | src/internal/discovery/server.go:267-492 | for each assumption of convergence, a run from the start on which the others hold for every client and peer and a listed client ends up wrong |
| `Necessity.BroadcastsInOrderIsNeeded` | src/internal/discovery/server.go:401 | such a run: a peer comes back on a new connection and its join overtakes its leave |
| `Spawning.StepSpawns` | src/internal/discovery/server.go:267-492 | the tasks a step adds to those owed are one broadcast per entry added, replaced or removed, and no others |
| `Spawning.SpawnedTellsAll` | src/internal/discovery/server.go:267-492 | without failed pings, a peer's status after any run is what the newest broadcast spawned about it tells |
| `RegistryTheorems.JoinsAndLeavesAlternate` | src/internal/discovery/server.go:267-401 | on every run, per peer, the spawned peer_joined of new entries and the spawned peer_left, read off the server's owed tasks, strictly alternate |
| `RegistryTheorems.JoinsMinusLeaves` | src/internal/discovery/server.go:385-492 | the counts of those spawned broadcasts differ by one exactly while the peer is registered |
| `RegistryTheorems.SupersededCloseIsHarmless` | src/internal/discovery/server.go:389-398 | closing other connections, superseded ones included, never ends a registration on any run |
| `RegistryTheorems.CleanupKeepsTheTimely` | src/internal/discovery/server.go:470-491 | each cleanup leaves exactly the entries seen within two minutes, unchanged |
| `RegistryTheorems.PunctualPeersStay` | src/internal/discovery/server.go:406-491 | a peer that speaks at least every two minutes is never evicted on any run |
| `Heartbeats.PingLedger` | src/internal/discovery/server.go:432-455 | on every run, pings written to a connection are those handled and those still on it |
| `Heartbeats.AnsweringPeersStay` | src/internal/discovery/server.go:406-491 | a peer that at each cleanup has answered a heartbeat of the last two minutes is never evicted on any run |
| `ConnectionPools.ConnectionPool.ConnectTo` | src/internal/peer/connection.go:58-88 | refines Connect, with reuse, the full pool and the failed dial |
| `ConnectionPools.ConnectionPool.DisconnectFrom` | src/internal/peer/connection.go:91-112 | closes and removes the entry, or reports that there is none |
| `ConnectionPools.ConnectionPool.TransferWith` | src/internal/peer/connection.go:137-196 | a failed read or write breaks the entry, a good one refreshes it |
| `ConnectionPools.ConnectionPool.CleanupAt` | src/internal/peer/connection.go:287-308 | collect-then-delete is filtering by KeepAlive, closing each removed socket once |
| `ConnectionPools.ConnectionPool.CloseAll` | src/internal/peer/connection.go:311-328 | closes every socket and empties the pool |
| `ConnectionPools.ConnectSucceedsIff` | src/internal/peer/connection.go:58-88 | a connected entry results exactly when there was one, or the dial succeeds and the pool is not full; only then a socket is opened |
| `ConnectionPools.TransferEffect` | src/internal/peer/connection.go:137-196 | exactly which transfers break, refresh or leave an entry; no other entry changes |
| `ConnectionPools.DisconnectMakesRoom` | src/internal/peer/connection.go:91-112 | on every run a disconnect leaves no entry and closes its socket, and the next successful dial is used |
| `ConnectionPools.CloseSettlesLedger` | src/internal/peer/connection.go:311-328 | after Close the pool is empty and dials = closes + broken entries overwritten |
| `ConnectionPools.Defaults` | src/internal/peer/connection.go:40-55 | a hundred connections and sixty seconds unless configured |
| `ConnectionPools.LedgerAndCapacity` | src/internal/peer/connection.go:58-112 | on every run at most MaxConnections entries; dials = closes + entries + broken entries overwritten |
| `ConnectionPools.SocketsAccountedIff` | src/internal/peer/connection.go:62-84 | on a run every socket dialled is closed or still held exactly when no Connect replaced a broken entry |
| `ConnectionPools.ReconnectDropsSocket` | src/internal/peer/connection.go:62-84 | connect, fail to send, connect again: one socket is neither closed nor held |
| `ConnectionPools.NoFailureNoDrop` | src/internal/peer/connection.go:155-159 | without a failed read or write no socket is ever dropped unclosed |
| `ConnectionPools.ActiveSurvivesCleanup` | src/internal/peer/connection.go:294-298 | an entry used at time t survives cleanups up to t + KeepAlive and no later one |

## Left out

- Sockets, websockets, HTTP, JSON, DNS, the TUN interface, hole punching, tickers and logging: dial, read and write
  outcomes are parameters, time is a parameter that only grows.
- Locks: each critical section is one atomic step. `broadcastMessage` and `sendHeartbeats` hold only a read lock, so in
  the program the writes of two broadcasts may interleave and reach two connections in different orders, while the model
  sends each broadcast whole, in one order for every connection. The registry cannot change meanwhile, so a connection
  with one entry receives what it would if they were sent whole in the order of its own writes; a run that orders two
  broadcasts about one peer differently for two connections is not modelled. `Server.Stop` and the locking inside `Client.Connect`, which lock
  again what they already hold, are not part of the runs.
- Subnets written as IPv4-mapped IPv6 prefixes (`::ffff:a.b.c.d/n`), non-contiguous masks and unmasked networks: the
  manager builds its subnet with ParseCIDR, and only the first of these can come out of it.
- `net.IP.String`, `Equal`, `IPNet.Contains` and `IPMask.Size` are given by their meaning: canonical bytes, mask
  equality, and the prefix length.
- PaddedRoundTrip: one direction only, because in longer lists a misread length can bring the walk back into step by
  chance, as PaddingCanResync shows; PaddingBreaksIff is the exact condition where that cannot happen.
- ClientsConverge: a client's own LastSeen stamps, ports and public addresses are not part of the view.
- Server entries and pool byte counts: registry entries are values in the map rather than shared objects, since only the
  map reaches them; byte and latency counters are not modelled.
- Headers with IPv4 options, since the checksum reads 20 bytes only; the packet type dispatch.
- Reconnecting: a client's view lives with its connection. A client that comes back is a new connection whose view at
  the start is arbitrary, as `c.peers` survives; that it equals what the old connection left is not modelled.
- Statistics, list getters, DNS suggestions and the command line.
