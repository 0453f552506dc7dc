# wg-relay: verified model

wg-relay publishes services that sit behind a private network. A PostgreSQL
control plane hands out tunnels, tokens and leases. Relay nodes poll it for
snapshots (the WireGuard peers, the routes by host name, the DNS zone) and send
each visitor through WireGuard to the agent that holds the tunnel. Agents with
the same token compete for the lease on it.

The project models the parts of that system where state, order or chunking
matter, and proves what they guarantee over every input and every run:

- **Peer reconciliation.** `WgNet` has the device (which gives an allowed IP to
  one peer at a time) and `SetPeers` as classes. The script it emits reaches the
  wanted state, for every iteration order of both maps, exactly when the wanted
  addresses are distinct and the device was ready; it never mentions an
  unchanged peer; stopping after any line and retrying with the same list is
  safe. `Agent` and `Node` drive it.
- **The lease protocol.** `Store` has the statements over the tables and their
  constraints, `Relay` the step machine: a clock, any number of tunnels,
  instances and nodes, authenticated requests in flight (authenticating and
  executing are two steps), answers that get lost. `Leases`, `Rotation`,
  `Provenance`, `Routing` and `NodeHistory` prove properties of all its runs;
  `LongPoll` is the loop that answers a node.
- **The byte path.** `Stream`, `Sni`, `ProxyProto`, `Pipe` and `BytePath`: peek
  and replay, the PROXY v2 header and its reader, two interleaved copiers with
  half-close, and one visit from end to end; `Visits` says where a visitor of a
  node of a run ends up.
- **Names and derived tables.** `Sni.Match`, `AgentConfig.Resolve`,
  `AgentStorage` (directory listings), `StorageLock`, and the way of a DNS
  challenge from the API to an answer (`Challenges`, `Dns`).

`Basics`, `Text` and `Proto` hold shared vocabulary. Methods that change state
are proved equal to functions on values; the properties are lemmas about those
functions, and the machines (`Relay`, `Pipe`, `StorageLock`, `Challenges`) use
the same functions as their steps. In a machine an event that is not possible in
a state changes nothing, so every sequence of events is a run.

`dafny verify dfyconfig.toml` checks everything.

## Assumptions

- The WireGuard configuration protocol works line by line: `public_key` selects
  the current peer and creates it if needed, `remove` removes it, allowed IPs
  move to the peer they are given to. Allowed IPs are IPv4 host routes, as
  everywhere in the repository. A failing `IpcSet` has executed some prefix of
  its lines, possibly all of them. No listed peer has the device's own key.
- Each SQL statement, and each transaction, is one atomic step on the tables with
  the constraints of `internal/store/migrations/001_init.sql:9-38`; sequences
  are not rolled back. `now()` is a clock that never goes back.
- Public keys are canonical base64 text, so equal keys are equal text. Token ids
  are never drawn twice. An instance id is whatever a client says, with any
  token. A token's hash and a snapshot's truncated hash are injective: a version is
  the snapshot it names.
- Names are ASCII without escaped dots, so `ToLower` is ASCII lower-casing.
  Lemmas that need a lower-case base domain, or one without a final dot, say so.
- The TLS library reads any number of chunks of any size and then yields a name
  or fails. The connection an outgoing dial yields is a parameter.

## Where the code and what one might expect differ

- A retry of `SetPeers` with *another* list can leave a peer on the device that
  neither record nor list knows (`WgNet.RetryWithAnotherListCanMiss`), and
  `syncLoop` does retry with whatever it fetches next. `WgNet.RecoversExactly`
  is the exact condition, in terms of the record and the two lists.
- Nothing makes node keys unique, and when two listed nodes share one, the agent
  trusts a gateway address its device does not let in
  (`Agent.GatewaysAreThePeers` is exact). The error `setNodes` keeps under the
  name `firstErr` is the last one.
- Without half-close on its source, a direction of `Join` can lose data without
  any error (`Pipe.WholeExactlyWhenSourceHalfCloses`).
- `Unlock` does not check its caller: a call by anybody else lets two callers
  hold a name exactly when somebody holds it at that moment
  (`StorageLock.ForeignUnlockBreaksExactly`).
- Filtering by the server's textual prefix changes a listing exactly for `"/"`
  (`AgentStorage.FilterIsHarmlessExactly`), and a key with two slashes in a row
  makes a directory its own child (`AgentStorage.ListsItselfExactly`).
- A rotation takes the tunnel from the old token for good exactly when no
  registration authenticated with it is in flight at that moment
  (`Rotation.RotationIsFinalExactly`; `Rotation.LateRegistrationRun` is a run in
  which it is not final). What such a registration gets is out of every snapshot
  after one term, unless somebody renews it under its own instance name with the
  new token, which nothing prevents (`Rotation.RotationDrains`,
  `Rotation.BorrowedNameKeepsLease`).
- At the very instant a lease expires its holder is in no snapshot, yet nobody
  can replace it (`Leases.AtTheInstantOfExpiry`).
- `rname` escapes dots but not backslashes, so a mailbox reads back exactly when
  its local part has none (`Dns.MailboxReadsBackExactly`).

## Model

| member | source | states |
|---|---|---|
| WgNet.Net.SetPeers | internal/wgnet/wgnet.go:120-152 | The script sent is the difference between record and list, in some order of both maps; the record changes exactly when the device accepts it whole; on success the device agrees with the new record if and only if the wanted IPs are distinct and the device was ready; a failure keeps it ready for a retry |
| WgNet.Net.BuildWanted | internal/wgnet/wgnet.go:121-124 | The wanted map: the last entry of a key wins |
| WgNet.LastEntryWins | internal/wgnet/wgnet.go:121-124 | A listed key is wanted with the last of its entries |
| WgNet.WantedIsListed | internal/wgnet/wgnet.go:121-124 | Only listed keys are wanted |
| WgNet.Net.WriteRemovals | internal/wgnet/wgnet.go:125-130 | Every recorded peer that is no longer wanted is removed, once, and nothing else is written, for any order of the map |
| WgNet.Net.WriteChanges | internal/wgnet/wgnet.go:131-143 | Every wanted peer that is new or differs gets its block, once, and unchanged peers get none, for any order of the map |
| WgNet.Device.IpcSet | internal/wgnet/wgnet.go:144-149 | The device executes a prefix of the lines, all of them when it reports no error |
| WgNet.Device.Step | internal/wgnet/wgnet.go:125-143 | One configuration line acts as assumed, including taking an allowed IP away from its former peer |
| WgNet.ConvergesExactlyWhenReady | internal/wgnet/wgnet.go:120-152 | For every order of both iterations the whole script leaves exactly the wanted keys, allowed IPs, keepalives and valid endpoints if and only if no two wanted peers share an IP and the device was ready, swaps and inheritance of IPs included |
| WgNet.AgreementIsReady | internal/wgnet/wgnet.go:120-152 | A device that agrees with the record is ready for every wanted list |
| WgNet.RecoversExactly | internal/wgnet/wgnet.go:120-151 | After any failed calls for any of a set of lists, each stopped after any of its lines in any order, a call for another list always converges if and only if its addresses are distinct and every failed list names no stranger, agrees with the record on the peers the call leaves alone, and gives none of their addresses away |
| WgNet.RetryReachesWantedState | internal/wgnet/wgnet.go:125-151 | After any number of calls with one list, each stopped after any prefix of its own script, one call that goes through still reaches the wanted state |
| WgNet.RetryWithAnotherListCanMiss | internal/wgnet/wgnet.go:125-151 | A concrete failure after which a call with another list leaves a stranger on the device |
| WgNet.UnchangedPeersAreNeverMentioned | internal/wgnet/wgnet.go:131-134 | The script never selects a peer that is equal in both maps |
| WgNet.ScriptIsHarmless | internal/wgnet/wgnet.go:125-143 | No line selects an unchanged peer or takes its allowed IP |
| WgNet.EndpointsAreNeverCleared | internal/wgnet/wgnet.go:140-142 | A peer that stays wanted without an endpoint keeps the one the device knew |
| WgNet.SetPeersFacts | internal/wgnet/wgnet.go:120-152 | Convergence, well-formedness and readiness for a retry, for every prefix of one script |
| WgNet.RunKeepsWellFormed | internal/wgnet/wgnet.go:144-149 | Whatever lines run, every allowed IP belongs to a peer the device has |
| Agent.Tunnel.SetNodes | internal/agent/agent.go:260-287 | Unusable nodes are skipped and the last one reported; peers, nodes and gateways are all of one list, and stay those of the old one when the device refuses; a device that agreed with its record still does, and then the trusted gateways are exactly the addresses it lets in if and only if no two nodes share a key |
| Agent.Tunnel.Collect | internal/agent/agent.go:261-276 | The loop yields the peers, the nodes by key, the gateways and the last error of the list |
| Agent.Tunnel.IsGateway | internal/agent/agent.go:306-314 | A remote address is accepted exactly when a usable node of the applied list has it as gateway |
| Agent.GatewaysAreThePeers | internal/agent/agent.go:260-287 | With distinct gateways, the trusted addresses are exactly those the device lets in if and only if no two listed nodes share a key |
| Agent.SourceIsListedNode | internal/agent/agent.go:260-287 | Packets from an address come only with the key of the listed node that has that gateway |
| Agent.PeersAreNodes | internal/agent/agent.go:265-276 | The record's peers and the nodes by key have the same keys, each peer with its node's gateway |
| Agent.NodesArePeered | internal/agent/agent.go:265-275 | Exactly the nodes whose key, gateway and endpoint can all be used are peers, and a device that follows the record has each with its endpoint, a keepalive of 25 seconds and its gateway's address |
| Agent.LastBadExactly | internal/agent/agent.go:269-272 | An error is reported if and only if some node cannot be used, and it is that of the last such node |
| Store.Database.Acquire | internal/store/store.go:212-233 | Inserts, takes over or refreshes the row exactly as the statement does, with its errors in order: held, key in use, no such tunnel |
| Store.Database.Renew | internal/store/store.go:235-246 | Extends the caller's own row, expired or not, and reports superseded otherwise |
| Store.Database.Release | internal/store/store.go:248-251 | Deletes the caller's own row and nothing else |
| Store.Database.Rotate | internal/store/store.go:159-178 | Replaces the tunnel's token and drops its lease, or changes nothing |
| Store.Database.Auth | internal/store/store.go:197-208 | A token authenticates exactly when its id is present with its secret |
| Store.Database.Create | internal/store/store.go:118-156 | A new tunnel with the next address, the first free subdomain and its token, or only the sequences advance |
| Store.Database.Insert | internal/store/store.go:139-147 | Stops at the first free subdomain of the drawn ones, taking one id per try |
| Store.Database.Snapshot | internal/store/store.go:378-398 | One peer and two routes per unexpired lease, in order of tunnel id |
| Store.Database.constructor | internal/store/migrations/001_init.sql:9-38 | Empty tables; the address sequence starts at 2 |
| Store.CreateTunnelOutcome | internal/store/store.go:118-156 | Creation succeeds if and only if the pool has an address left, the token id is new and one of the subdomains is free; the new tunnel's token authenticates it; every older tunnel and all leases stay as they were |
| Store.FirstFreeSubdomain | internal/store/store.go:138-153 | The new tunnel has the first drawn subdomain that was free, the id its try took, and the only row added to the tokens |
| Store.FailureUsesIds | internal/store/store.go:129-150 | A failed creation uses up one tunnel id per subdomain tried, and none when there is no address |
| Store.NextAddressIsFree | internal/store/store.go:129-137 | The address computed for a new tunnel is never taken |
| Store.CreateKeepsInv | internal/store/migrations/001_init.sql:9-38 | Creating keeps every uniqueness and foreign key constraint and that all addresses come from used offsets |
| Store.AcquireKeepsInv | internal/store/migrations/001_init.sql:31-38 | Acquiring keeps the constraints, unique keys included |
| Store.RenewKeepsInv | internal/store/store.go:235-246 | Renewing keeps the constraints |
| Store.RotateKeepsInv | internal/store/migrations/001_init.sql:20-27 | Rotating keeps the constraints, one token per tunnel included |
| Store.PeersBelowMembers | internal/store/store.go:379-390 | A snapshot's peers are exactly the unexpired leases of existing tunnels |
| Store.RoutesBelowMembers | internal/store/store.go:388-395 | A snapshot's routes are exactly the domain and its wildcard of each of them |
| Store.SnapshotIsInOrder | internal/store/store.go:379-416 | A snapshot has one peer and its two routes for every live tunnel, once each and in order of tunnel id, and passes the zone on as read |
| AddressPool.OffsetAddr | internal/store/store.go:533-541 | The in-place arithmetic, wrap-around included, equals its specification |
| AddressPool.PutUint32 | internal/store/store.go:533-541 | The four bytes written are the big-endian form of the value |
| AddressPool.FromU32 | internal/store/store.go:533-541 | The big-endian bytes of a value read back as that value |
| AddressPool.OffsetStaysInside | internal/store/store.go:533-541 | On a masked prefix an offset is accepted if and only if it is below the size, the sum never wraps and the address is inside the prefix |
| AddressPool.OffsetIsInjective | internal/store/store.go:533-541 | Different offsets give different addresses |
| AddressPool.PoolsAreThese | internal/store/store.go:533-541 | Clients are in 10.64.0.0 to 10.127.255.255 and gateways in 10.10.0.0/16, and the offset is what is added to the first address |
| AddressPool.ClientsAreNotGateways | internal/store/store.go:129-137 | No client address is in the nodes' 10.10.0.0/16 |
| Relay.TunnelAddresses | internal/store/store.go:118-156 | In every run tunnels have distinct addresses and subdomains and none has a gateway's address |
| Relay.Reachable | internal/api/api.go:74-147 | Every reachable state keeps the schema's constraints, carries only drawn token ids, and no lease outlives the present by more than its term |
| Relay.NextKeepsInv | internal/api/api.go:74-147 | Every step of the system keeps that invariant |
| Relay.TunnelsOnlyGrow | internal/store/store.go:118-156 | Over any run time and drawn ids only grow and no tunnel is changed or removed |
| Relay.HandleFrame | internal/api/api.go:90-147 | A handled request changes leases and nothing else of the database |
| Provenance.LeasesAreRegistered | internal/store/store.go:212-219 | In every run the instance, key, version and time of every lease are those of the last granted registration event of its tunnel |
| Provenance.RegistrationIsRouted | internal/api/api.go:90-101 | In every run an executed registration that has to be granted is in the next snapshot with its own key at its tunnel's address, and any other registration changes nothing |
| Provenance.GrantedRow | internal/store/store.go:214-218 | A granted registration's row holds what it asked for, for 45 seconds |
| Provenance.RequestsAreAuthenticated | internal/api/api.go:74-88 | In every run every request in flight has the token and content it was authenticated with, for the tunnel the token was good for then |
| Provenance.AuthenticatesExactly | internal/store/store.go:197-208 | In every run a token authenticates a tunnel if and only if it is, id and secret, the one issued last for it by a creation or a rotation |
| Leases.HolderIsReplacedOnlyBy | internal/store/store.go:212-251 | A holder loses its row only to its own release, a rotation, or another instance registering strictly after expiry |
| Leases.RequestsStayHome | internal/store/store.go:212-251 | A request touches at most its own tunnel's row, a renewal or release never another instance's, and a renewal revives an expired row |
| Leases.RegisterSucceedsExactly | internal/store/store.go:212-233 | Registering succeeds if and only if no other holder is unexpired (the instant of expiry included) and no other row has the key, and is refused as held if and only if there is such a holder |
| Leases.NextChange | internal/store/store.go:159-251 | Every step of the system leaves the leases alone, grants one free, own or strictly expired row, or ends one |
| Leases.GrantsNeverOverlap | internal/store/store.go:212-251 | In every run the grants of one tunnel to different instances never overlap in time |
| Leases.BeatsKeepHolder | internal/api/api.go:119-134 | While its grants are at most a given gap apart a holder stays holder, with the rest of the term in hand |
| Leases.HeartbeatsKeepTheTunnel | internal/api/api.go:26-27 | From any reachable state on, while grants are at most one term apart, every other registration is refused as held |
| Leases.HeartbeatsKeepTheSnapshot | internal/store/store.go:378-398 | While they are strictly less than a term apart, the holder's key and address are in every snapshot |
| Leases.AtTheInstantOfExpiry | internal/store/store.go:219-382 | Exactly one term after its last grant a holder is in no snapshot and cannot be replaced |
| Rotation.RotateKillsTokens | internal/store/store.go:159-178 | Rotating kills the old token, drops the lease and makes the new token valid for the same tunnel |
| Rotation.RotatedTokenIsRefused | internal/store/store.go:159-208 | After a rotation the old token never authenticates again, in any continuation |
| Rotation.RotationDrains | internal/store/store.go:159-251 | Once the requests authenticated with a dead token are over it gains no lease in any continuation, and one it had left is unchanged, so out of every snapshot after one term, unless a heartbeat with another token came under its instance name |
| Rotation.BorrowedNameKeepsLease | internal/api/api.go:119-134 | The holder of the present token can keep such a lease alive past its term by using its instance name |
| Rotation.RotationIsFinalExactly | internal/store/store.go:159-178 | In every run, some continuation of a rotation gives the tunnel back to the old token if and only if a valid registration authenticated with it is in flight |
| Rotation.DeadTokenHoldsExactly | internal/api/api.go:74-101 | In every run a dead token holds a tunnel now or later if and only if it does now or such a registration is in flight |
| Rotation.LateRequestLandsExactly | internal/api/api.go:74-101 | Executed right after the rotation, a request in flight gets the tunnel for the old token if and only if it is a valid registration with it and no other row has its key |
| Rotation.LateRegistrationRun | internal/api/api.go:74-101 | A whole run from the empty database in which that happens |
| Rotation.RunKeepsTokens | internal/store/store.go:151-178 | In every run every tunnel has a token |
| Rotation.FirstTunnelRow | internal/store/migrations/001_init.sql:8-13 | The first tunnel ever created is number 1 at 10.64.0.2, with its one token |
| Routing.NoStaleMisrouting | internal/sni/sni.go:83-98 | In every run, on every node however stale, a host that is routed goes to the address of the one tunnel whose domain it is or is below |
| Routing.NodesNeverDisagree | internal/node/node.go:147-171 | Two nodes, even at different moments of a run, never send one host to different addresses |
| Routing.LiveTunnelIsRouted | internal/store/store.go:388-394 | A snapshot that holds a tunnel sends every host of its domain to its address |
| Routing.DeclaredRoutesAreReachable | internal/agent/config.go:123-156 | Every host an agent's resolved table matches is sent to its tunnel by any node whose snapshot holds it |
| Routing.SnapshotIsSound | internal/store/store.go:378-398 | A snapshot can be applied, and every entry of its table is published by a tunnel with that address |
| Routing.SnapshotPeersAreLiveLeases | internal/store/store.go:378-398 | In every run the peers a node would record are exactly the live leases' keys with their tunnels' addresses |
| Routing.SnapshotPeersAreDistinct | internal/node/node.go:147-170 | In every run the allowed IPs a snapshot asks for are pairwise distinct, which is what the device needs to follow it |
| Routing.OnlyNodeEventsTouchViews | internal/node/node.go:120-145 | Nothing but a node's own steps changes what it has applied |
| Visits.VisitorsReachTheOwner | internal/node/node.go:230-254 | In every run, on every node however stale, a visitor is dialled through to an agent if and only if the node's table covers the host and the local one does not, and then at the address of the one tunnel that owns the host |
| Visits.DecidesExactly | internal/node/node.go:230-251 | A visitor is refused if and only if there is no name or neither table covers it; a host the local table covers goes to its most specific entry, any other to the most specific one of the node's table |
| Visits.DispatchesExactly | internal/agent/agent.go:326-376 | A connection is dropped unless it is from a gateway, has an acceptable header and a name, and a route covers the name; the most specific route decides between ending TLS and passing on the header as it came |
| NodeHistory.NodeViewIsOneSnapshot | internal/node/node.go:120-171 | At every moment a node's peers and routes are both the image of one snapshot the control plane really held, the one its version names |
| NodeHistory.ViewsNeverGoBack | internal/node/node.go:120-145 | The moment of that snapshot never moves backwards in any run |
| NodeHistory.ApplyMovesForward | internal/node/node.go:137-142 | A rejected configuration changes neither peers nor routes nor version; an accepted one is from a strictly later moment |
| NodeHistory.LongPollAnswersFirstNews | internal/api/api.go:390-418 | With anything else going on between its ticks, a long poll is answered with the first snapshot read that differs from the node's version, and is unanswered if and only if none so far did |
| LongPoll.Poll | internal/api/api.go:390-418 | The tick loop answers with the first differing snapshot, fails at the first error while the window is open, and reports not modified (or nothing, if the node hung up) if and only if no tick of the window had news or an error |
| NodeHistory.Follow | internal/node/node.go:120-145 | Over snapshots of a real run a node whose device agreed with its record and refuses nothing agrees at every head of the loop |
| NodeHistory.HistoryIsFollowable | internal/node/node.go:147-170 | Every snapshot of a run can be read, and its addresses are distinct |
| Node.Node.Apply | internal/node/node.go:147-183 | All or nothing: on an error peers, routes and zone stay and a retry is still safe; otherwise they are the configuration's, the zone only if it has one, and the device agrees if and only if it could |
| Node.Node.Turn | internal/node/node.go:122-143 | One turn of the loop keeps peers, routes and version of one configuration; an unreadable one leaves the device alone, an accepted one makes it agree exactly when it could, and a refused one keeps it ready for a retry |
| Node.Node.SyncLoop | internal/node/node.go:120-145 | It reads the outcomes up to the first refused token and ends with an error exactly there; the node is in step with the last configuration it applied, applied in order, and so is its device if it refused none |
| Node.Node.constructor | internal/node/node.go:49-56 | A fresh node has nothing recorded and its device agrees |
| Node.ParsePeers | internal/node/node.go:148-159 | The peers of a configuration, or nothing if any key or address is bad |
| Node.ParseRoutes | internal/node/node.go:160-167 | The routes by lower-case host name, or nothing if any address is bad |
| Node.PeersParseExactly | internal/node/node.go:148-159 | The peers can be read if and only if every key and address can |
| Node.RoutesParseExactly | internal/node/node.go:160-167 | The routes can be read if and only if every address can, and of several routes with one name the last counts |
| Sni.Match | internal/sni/sni.go:83-98 | The loop finds what the specification of the search finds |
| Sni.MatchIsMostSpecific | internal/sni/sni.go:81-98 | Matching fails if and only if no pattern covers the host, and otherwise returns the entry of the most specific one: the host itself, else the longest wildcard |
| Sni.MostSpecificIsUnique | internal/sni/sni.go:81-98 | There is only one most specific pattern |
| Sni.CoveredHostIsUnder | internal/sni/sni.go:81-98 | A host covered by a pattern under a domain is itself under the domain |
| Sni.UnderIsCovered | internal/store/store.go:391-393 | The two patterns published for a domain cover every host under it |
| Sni.PrefixConn.Read | internal/sni/sni.go:58-65 | Delivers the kept bytes first and then the connection's, losing and inventing none |
| Sni.Peek | internal/sni/sni.go:22-46 | However much the TLS reader took, the connection returned still yields every byte; the name is in lower case; no name or no hello is refused |
| Text.OneOwner | internal/store/store.go:389-393 | Two tunnel domains under one base never cover the same host |
| Stream.Conn.ReadFull | internal/proxyproto/proxyproto.go:52-64 | Exactly the bytes asked for whatever the chunking, or all there was and an error |
| ProxyProto.Header | internal/proxyproto/proxyproto.go:25-45 | Builds the header bytes of section 2.2 of the HAProxy PROXY protocol specification |
| ProxyProto.Read | internal/proxyproto/proxyproto.go:51-81 | The outcome, and exactly how many bytes were consumed, on every stream and for every error |
| ProxyProto.RoundTrip | internal/proxyproto/proxyproto.go:24-81 | Reading a header followed by anything yields the same ports and addresses, the header itself as raw, and consumes exactly it |
| ProxyProto.ArrivesSameHost | internal/proxyproto/proxyproto.go:25-45 | The arriving address is the original up to IPv4 mapping and zone |
| ProxyProto.AcceptedRawIsConsumed | internal/proxyproto/proxyproto.go:49-66 | Whatever is accepted, raw is exactly the consumed part of the stream, extensions included |
| ProxyProto.OnlyTheHeaderDecides | internal/proxyproto/proxyproto.go:51-81 | Only streams that start with the signature are accepted, whatever follows the header |
| ProxyProto.HeaderLayout | internal/proxyproto/proxyproto.go:15-45 | The header byte by byte: signature, version and command, family, length, addresses and ports, as section 2.2 of the HAProxy PROXY protocol specification lays them out |
| ProxyProto.SixteenBytes | internal/proxyproto/proxyproto.go:38-40 | The 16-byte form of an address: itself, mapped, or all zeros |
| ProxyProto.AcceptsExactly | internal/proxyproto/proxyproto.go:51-81 | Exactly which streams are accepted, and how much of them is consumed |
| ProxyProto.ReadsInPlace | internal/proxyproto/proxyproto.go:66-80 | The addresses and ports read are those at their places in the stream, and none for LOCAL |
| Pipe.DeliversPrefixes | internal/pipe/pipe.go:15-37 | At every step each direction has delivered a prefix of what its source sent, and all of it if it ended by itself |
| Pipe.EndIsPassedOn | internal/pipe/pipe.go:32-36 | In every run a side that supports half-close has been closed for writing if and only if the copier towards it ended by itself, and one that does not has been closed altogether |
| Pipe.EndedSideStaysReadable | internal/pipe/pipe.go:32-36 | With half-close and no failure both sides stay open for reading until the return |
| Pipe.CleanJoinDeliversBoth | internal/pipe/pipe.go:12-37 | With half-close and no error both directions are delivered whole, whichever ends first |
| Pipe.WholeExactlyWhenSourceHalfCloses | internal/pipe/pipe.go:32-36 | Without errors a direction is always delivered whole if and only if its own source supports half-close |
| Pipe.LosingRun | internal/pipe/pipe.go:32-36 | A run without any error that loses data on a source without half-close |
| Pipe.ErrorEndsBothCopies | internal/pipe/pipe.go:26-31 | After an error nothing more is delivered either way |
| Pipe.AbortSpreads | internal/pipe/pipe.go:26-31 | After an error the other copier ends in one step that is no new failure |
| Pipe.AbortReturns | internal/pipe/pipe.go:15-31 | From any state with an aborted copier Join returns within two steps, with nothing more delivered and no new failure, whether or not the sources have ended |
| Pipe.ReturnsWithBothClosed | internal/pipe/pipe.go:15-23 | Join returns only when both copies are over, with both connections closed |
| Pipe.JoinAlwaysAdvances | internal/pipe/pipe.go:15-23 | Once both sources have ended some step always brings the return closer without a new failure |
| Pipe.JoinReturns | internal/pipe/pipe.go:15-23 | From any state with both sources ended Join returns without a new failure, in no more steps than there is work left |
| BytePath.Join | internal/pipe/pipe.go:15-37 | Its turns, in any interleaving and chunking, are a clean run of the interleaved copiers, so both streams are carried whole and both ends closed |
| BytePath.HandleTLS | internal/node/node.go:230-268 | Local routes first, then the table; the agent's side gets header and visitor's bytes, a local target only the bytes, a refused visitor gets nothing, and a failed dial or header write closes everything with at most a part of the header sent |
| BytePath.Handle | internal/agent/agent.go:326-376 | Only gateways with a valid header, a name and a route get through; the backend receives the bytes behind the header, preceded by it when asked for; a terminated route gets the connection positioned behind the header; a failed dial or header write closes everything |
| BytePath.HeaderIsTransparent | internal/agent/agent.go:332-375 | The agent recovers exactly the header the node wrote, and the bytes behind it are the visitor's |
| BytePath.Visit | internal/node/node.go:260-267 | From end to end, on a clean visit the backend receives exactly the visitor's bytes, preceded by exactly the node's header when the route asks for it, and the visitor exactly the reply; otherwise at most a part of the header arrives |
| AgentConfig.Resolve | internal/agent/config.go:123-156 | The loop yields the table of the specification or fails with it |
| AgentConfig.ResolveHost | internal/agent/config.go:126-149 | One declared host becomes its key or is refused, wildcards and relative names included |
| AgentConfig.ResolveIsOneKeyPerSpec | internal/agent/config.go:123-156 | Resolving succeeds if and only if every host is acceptable and no two stand for the same name, and then the table is exactly the specs, one key each |
| AgentConfig.ResolvesExactly | internal/agent/config.go:123-156 | Resolving succeeds if and only if the domain allows every declaration and no two of them stand for the same hosts |
| AgentConfig.TableMatchesDeclared | internal/agent/config.go:123-156 | The table matches exactly the hosts its declarations stand for (a relative name, the domain, everything below it or below a name, or a full name), each with the narrowest of them |
| AgentConfig.KeyStandsForHosts | internal/agent/config.go:126-149 | A declaration is accepted if and only if the domain allows it, and its key covers exactly the hosts it stands for |
| AgentConfig.KeysAreUnderDomain | internal/agent/config.go:141-149 | Every accepted key is the domain or below it |
| AgentConfig.TableIsUnderDomain | internal/agent/config.go:123-156 | So is every key of the table and every host it matches |
| AgentConfig.KeysAreFixedPoints | internal/agent/config.go:126-149 | Spelling out a resolved key, in any letter case, with or without final dot, resolves to it again |
| AgentStorage.ChildKeys | internal/agent/storage.go:149-183 | The loop with its set of seen keys yields the listing of the specification |
| AgentStorage.Child | internal/agent/storage.go:154-176 | What one key contributes to a listing |
| AgentStorage.ListsEachChildOnce | internal/agent/storage.go:177-180 | Each child appears once, in order of first occurrence |
| AgentStorage.ChildrenMembers | internal/agent/storage.go:146-183 | The children are exactly what the keys contribute |
| AgentStorage.ListsExactly | internal/agent/storage.go:149-183 | Without recursion a listing holds exactly the one-component entries of the directory that some key is or goes on from, and recursively exactly the keys inside it |
| AgentStorage.List | internal/agent/storage.go:126-144 | Not found if and only if no stored key is inside the directory, for every prefix but a lone slash |
| AgentStorage.StartsWithMembers | internal/store/store.go:483-495 | The server returns exactly the keys that start with the prefix |
| AgentStorage.FilterIsHarmlessExactly | internal/store/store.go:483-495 | Filtering by the server's textual prefix first never changes a listing if and only if the prefix is not a lone slash |
| AgentStorage.DescentIsRecursiveListing | internal/agent/storage.go:124-183 | Listing directory by directory ends and reaches exactly the keys of the recursive listing, when no key has an empty component |
| AgentStorage.ListsItselfExactly | internal/agent/storage.go:149-183 | A directory lists itself if and only if some key continues it with two slashes in a row |
| StorageLock.Locks.TryLockOnce | internal/agent/storage.go:189-196 | The critical section takes a free name with a new channel, or yields the channel to wait on |
| StorageLock.Locks.Release | internal/agent/storage.go:207-215 | Frees the name and closes its channel |
| StorageLock.MutualExclusion | internal/agent/storage.go:187-215 | In every run of any number of callers in which only holders unlock at most one holds a name, and its channel is not closed yet |
| StorageLock.EntersExactly | internal/agent/storage.go:188-196 | A caller gets a name if and only if nobody holds it, and otherwise waits for the present holding's channel |
| StorageLock.NoLostWakeUp | internal/agent/storage.go:187-215 | Every waiter's channel is closed or the one in the table, so a waiter for a free name can always wake and take it |
| StorageLock.ForeignUnlockBreaksExactly | internal/agent/storage.go:207-215 | After any run in which only holders unlocked, one unlock by anybody else lets two callers hold the name together if and only if somebody holds it at that moment |
| StorageLock.ForeignUnlockRun | internal/agent/storage.go:207-215 | A whole run in which that happens |
| Challenges.ChallengeStore.AcmeCreate | internal/api/api.go:263-286 | Stores the lower-case name without final dot exactly when it is the tunnel's to publish and the value is acceptable |
| Challenges.ChallengeStore.AcmeDelete | internal/store/store.go:522-531 | Deletes only the caller's own row |
| Challenges.ChallengeStore.List | internal/store/store.go:432-441 | Every row once, in some order |
| Challenges.CreatesExactly | internal/api/api.go:263-286 | A request is granted if and only if its name, in lower case and without final dot, is `_acme-challenge.` followed by a name under the domain and its value has 1 to 512 characters; then its row is added with that value, otherwise nothing changes |
| Challenges.ValidNameExactly | internal/api/api.go:320-326 | Exactly those names are valid |
| Challenges.DeletesExactly | internal/store/store.go:522-531 | The owner's deletion removes exactly its row, anybody else's nothing |
| Challenges.RowsAreAskedFor | internal/store/store.go:504-509 | In every run every row has the tunnel, name and value of the request that created it |
| Challenges.AcceptedForOneTunnelOnly | internal/api/api.go:320-326 | A name accepted for one tunnel is accepted for no other |
| Challenges.ServesExactlyWhatIsStored | internal/node/node.go:188-194 | In every run, for every order of rows and of normalisation, a TXT query in any letter case gets exactly the values of the rows stored under that name, each row once |
| Challenges.StoredUnderOwnNameOnly | internal/store/store.go:504-531 | In every run rows under a tunnel's names are its own, and nobody else can delete them |
| Dns.DnsChallenges | internal/node/node.go:188-194 | The loop groups the flat list by name |
| Dns.GroupIsByName | internal/node/node.go:185-194 | Grouping loses and mixes nothing: each name gets its values in order |
| Dns.Normalize | internal/dnsserver/server.go:29-45 | Every name becomes canonical and keeps its values, for any map order |
| Dns.Answer | internal/dnsserver/answer.go:44-96 | The message for every question, zone and type |
| Dns.AnyNameGetsTheEdge | internal/dnsserver/answer.go:80-90 | An A query for any name of the zone, in any letter case, gets exactly the IPv4 entries of the edge list, each once and in order, under the name as asked, and the SOA if there are none |
| Dns.RefusesExactly | internal/dnsserver/answer.go:47-57 | Anything but one question is malformed, and exactly the names outside the zone are refused |
| Dns.SoaAtTheApex | internal/dnsserver/answer.go:60-63 | The SOA is the answer at the zone's own name, naming its first name server, and the authority everywhere else |
| Dns.CanonicalExactly | internal/dnsserver/server.go:35-43 | A canonical name is in lower case with a final dot and otherwise the same name |
| Dns.CanonicalAllAt | internal/dnsserver/server.go:38-40 | The name servers are made canonical one by one, in order |
| Dns.MailboxDefaults | internal/dnsserver/answer.go:119-130 | Without an address the mailbox is the zone's hostmaster, and text without an at sign is taken as it is |
| Dns.NameServersAtTheApex | internal/dnsserver/answer.go:59-72 | An NS query gets all the name servers in order at the zone's own name and the SOA below it |
| Dns.TXTPipeline | internal/dnsserver/answer.go:73-79 | Through grouping, normalisation and lookup a TXT query in any letter case gets exactly the values listed under its name, repetitions included |
| Dns.MailboxReadsBackExactly | internal/dnsserver/answer.go:119-132 | The mailbox name spells the configured address (section 8 of RFC 1035) if and only if its local part has no backslash |

## Left out

- SQL, pgx, connection retries and migrations: statements are atomic steps.
- Accounts, plans and `last_used_at`: they decide nothing in the modelled code.
- wireguard-go, the netstack, handshakes, `LastHandshakes` and `ResolveEndpoint`: libraries and network; only the device's peer table is modelled, and a resolved endpoint is a parameter.
- TLS parsing, certificates, ACME, the terminator, the exporter and the HTTP redirect: thin use of libraries.
- AES-GCM, HKDF, token printing and hashing: taken to be injective where it matters.
- Cloudflare, webhooks, the rate limiter, the check for a public node and the external DNS provider: they only add refusals or calls to other services.
- `apiclient`, CLI, YAML loading, banner and logs.
- Retry delays, tickers and time-outs of the agent's and node's loops: a request may happen at any moment of a run, or never.
- The nodes' own tokens and the list of active nodes: the list an agent receives is a parameter of `SetNodes`.
- The storage statements other than the prefix filter.
- Store.Database.Snapshot: the DNS part is read by separate statements and is a parameter; what it serves is proved in `Challenges` for a list read in one statement.
- Node.Node.SyncLoop: concurrent readers of the route table are not modelled; they load one whole table each.
- Sni.PrefixConn.Read: read errors other than the end of the stream are in `Pipe`, not here.
- BytePath.Join: the clean run only, both ends half-closing; errors and missing half-close are in `Pipe`.
- BytePath.HandleTLS: copy errors after the header are in `Pipe`, not here.
- BytePath.Handle: copy errors after the header are in `Pipe`, not here.
- BytePath.Visit: one passthrough visit; the tunnel in between is a reliable stream, and the backend's reply does not depend on what it receives.
- StorageLock.NoLostWakeUp: says that a waiter can proceed, not that the scheduler lets it.
- Pipe.JoinAlwaysAdvances: says that a step is possible, not that the scheduler takes it.
- Dns.Answer: TTLs, the SOA's serial and timers, and the wire format are not modelled.
- Agent.Tunnel.SetNodes: a gateway is an IPv4 address; addresses the agent parses as IPv6 are not modelled, nor is the table of handshakes it logs from.
- Challenges.ChallengeStore.AcmeCreate: the check for a public node, the rate limit and the external provider come before the modelled checks and only refuse.
- Challenges.ChallengeStore.List: the query's order by name depends on the database's collation and is not promised; every result holds for any order.
