# Verification of the OPTiCS Hub and gateway

A Dafny 4.11 model of the parts of OPTiCS where order, time and state interact, and proofs about them.
`dafny verify dfyconfig.toml` checks everything.

## What is modelled

- **Signed messages.** `Texts`, `Json`, `KeyOrder`, `Canonical` and `ObjectGraph` are the deterministic JSON text of a
  payload: on trees, and on a heap with shared objects and cycles. JavaScript strings are sequences of UTF-16 code
  units; printing follows section 25.5.2 of ECMA-262 with integer-like keys first (section 10.1.11), escapes section 7
  of RFC 8259. `ReplayGuard` is the nonce memory, `Envelope` the signed text, sign and verify. HMAC is an
  uninterpreted function of secret and text.
- **The gateway.** `Bytes`, `GatewayStreams` and `PooledStream` are the incremental readers of client, agent and
  heartbeat bytes, up to the pipes of the token path and the pooled path. `HostRoutes` is the reading of a Host header,
  `PreconnectPool`, with `PoolOrder` for who is claimed first, and `TokenRegistry` are the two ways a client socket
  meets an agent socket. Every event-loop turn is one step, so the gap while the Hub verifies a preconnect lies between
  two steps.
- **The Hub.** `AgentUpdate`, `RouteCache`, `PreconnectVerification`, `EmailVerification`, `WorkspaceDomains`,
  `ServiceEndpoints`, `ReleaseCatalog` and `TrafficSync` are state machines over database rows, caches, timers and a
  clock that does not go back. `RoutingTables` puts the routing tables of three of them together. `Semver` is the
  version order. `EmailOutcomes`, `WorkspaceOutcomes`, `ServiceOutcomes` and `ReleaseOutcomes` tell what the handlers of
  four of them do from outside: when each succeeds, why it refuses, and what it leaves.

Each stateful component is a class with the source's fields. Its methods are proved equal to step functions on the
class's abstract state (`View`, or the field itself), and invariants and whole-run theorems are proved about the steps.
What a step does is stated a second time without its definition, as conditions on the state before and after it.

Hub handlers are single atomic steps: the source awaits between reading and writing, so the theorems speak of
serialised handlers. External calls (DNS, GitHub, Cloudflare analytics, random values, clocks) are parameters of a step,
and fresh values are assumed to be fresh.

## Where the code and its promises differ

- The comment in src/global/hash.util.ts:138-140 rests on event and nonce both being free of newlines. Only the event
  needs to be (`Envelope.SigningMaterialIsInjective`; exactly when events collide: `Envelope.WhenEventsCollide`).
- src/global/hash.util.ts:259-266 says forgotten nonces would have expired anyway. That holds unless messages are stamped
  ahead of the clock (`Envelope.AcceptedAtMostOnce`, `Envelope.FutureMessageIsReplayed`, exactly when:
  `Envelope.ReacceptedIffFarMessage`).
- A signature with one extra hex digit is accepted, since comparison is on decoded bytes (`Envelope.SignatureComparison`).
- src/agent/agent-update.service.ts:145-146 promises that expire puts an agent that stays away offline. An
  acknowledgement or a late failure report during the restart ends the flight and the promise, and the agent says
  "restarting" for good (`AgentUpdate.RestartingAgentsFate`, `AgentUpdate.StrandedAgents`).
- tunnel/preconnect.ts:164-174 takes the heartbeat reader away with what it has of an unfinished frame. A claim in the
  middle of a PING drops its first half and gives the second to the client (`PooledStream.ReplyIsDelivered`,
  `PooledStream.SplitPingReachesTheClient`).
- A socket that closes while the Hub verifies it is pooled all the same, because its close listener comes too late
  (`PreconnectPool.DeadSlots`).
- An endpoint whose subdomain is an explicit null gets the label "null" (`ServiceEndpoints.NullIsALabel`).
- The retry of verifyPreconnect expects a reissued secret (src/tunnel/tunnel.service.ts:63-71), but secrets are write-once,
  so the only outdated cache entry is a null, which is not retried (`PreconnectVerification.CacheOnlyRefuses`,
  `PreconnectVerification.RefusedRightAfterRegistering`).
- handleUpdateServiceSubdomain looks for duplicates in other services only, so a service can repeat its own label
  (`ServiceEndpoints.StepIsUnambiguous`, `ServiceEndpoints.RepeatingIsAmbiguous`); the schema's unique key does not stop it, as it contains a null column.
- Endpoints of a deleted service keep their labels taken (`ServiceEndpoints.DeletedServiceKeepsItsLabels`).
- A DNS call that is carried out but fails to report leaves zone and rows apart (`WorkspaceDomains.ZoneIsKeptUnlessLost`,
  `WorkspaceDomains.OrphansComeFromLeaks`; inputs: `WorkspaceDomains.LostDeletionBreaksTheZone`,
  `WorkspaceDomains.LostRenamingBreaksTheZone`, `WorkspaceDomains.LostCreationLeavesAnOrphan`,
  `WorkspaceDomains.IgnoredRefusalLeavesAnOrphan`).
- blockRelease with an empty reason blocks nothing (`ReleaseCatalog.BlockedStaysBlocked`); the controller asks for one.
- A Host header with a final dot before a port is refused (`HostRoutes.DotBeforePortIsRefused`).

## Model

| member | source | states |
|---|---|---|
| `Json.ParsePrint` | src/global/hash.util.ts:95-97 | a JSON reader gives every printed value back and stops exactly where the value ended |
| `Json.PrintHasNoControls` | src/global/hash.util.ts:138-140 | printed JSON holds no control character, so no line break |
| `Json.PrintSpells` | src/global/hash.util.ts:95-97 | arrays and objects are printed without blanks, elements and members in order with a comma between two |
| `Json.QuotesUnitByUnit` | src/global/hash.util.ts:138-140 | a string is printed unit by unit between quotation marks, a surrogate without its other half escaped |
| `Json.EscapeMeans` | src/global/hash.util.ts:138-140 | the short escapes, each spelled out: a newline is a backslash and an n |
| `Json.OtherUnitsMean` | src/global/hash.util.ts:138-140 | every other control or lone surrogate is a backslash, a u and its four hex digits in lower case, and any other unit is itself |
| `KeyOrder.SortSorts` | src/global/hash.util.ts:121 | sorting any list of distinct keys gives the code-unit order and keeps the map from keys to values |
| `KeyOrder.SortKeepsAll` | src/global/hash.util.ts:121 | sorting loses no entry |
| `KeyOrder.SortedIsUnique` | src/global/hash.util.ts:120-125 | a sorted member list is determined by its map, whatever order the keys came in |
| `KeyOrder.OwnOrderSorts` | src/global/hash.util.ts:95-125 | integer-like keys come first in the printed object, and the printed order depends on the key set only |
| `Texts.LexLessMeans` | src/global/hash.util.ts:121 | one text is below another iff it is a proper prefix of it or has the smaller code unit where they first differ |
| `KeyOrder.SortAscends` | src/global/hash.util.ts:121 | of two sorted keys the earlier is below the later in that sense |
| `KeyOrder.ArrayIndexMeans` | src/global/hash.util.ts:95-125 | integer-like means: the decimal numeral of a number below 4294967295 |
| `KeyOrder.OwnOrderAscends` | src/global/hash.util.ts:95-125 | in a printed object integer-like keys ascend by value and come first, the others ascend by code unit |
| `Canonical.NormalizeKeepsMeaning` | src/global/hash.util.ts:99-130 | normalize changes no meaning: only key order, undefined members and toJSON wrappers |
| `Canonical.EmitKeepsMeaning` | src/global/hash.util.ts:85-97 | serialising a payload keeps its meaning; undefined array entries and non-finite numbers read as null |
| `Canonical.StringifyKeepsMeaning` | src/global/hash.util.ts:85-97 | also without normalize, what JSON.stringify prints of any payload means what the payload means |
| `Canonical.OrderedIsUnique` | src/global/hash.util.ts:88-93 | two ordered JSON values with the same meaning are equal |
| `Canonical.CanonMeans` | src/global/hash.util.ts:95-130 | the canonical value means what the payload means and is ordered at every depth |
| `Canonical.ParseCanonical` | src/global/hash.util.ts:95-130 | parsing canonicalize(v) returns v up to undefined members, key order and nulls, with nothing left over |
| `Canonical.CanonicalEquality` | src/global/hash.util.ts:83-97 | two payloads share a canonical text if and only if they mean the same |
| `Canonical.CanonicalHasNoNewline` | src/global/hash.util.ts:138-140 | canonical text never contains a newline |
| `Canonical.CanonicalAscends` | src/global/hash.util.ts:83-125 | so do the keys of every object of the canonical value, at every depth |
| `ObjectGraph.UnfoldUnfolds` | src/global/hash.util.ts:99-130 | what the walk computes without meeting a cycle is the tree unfolding of the graph, shared siblings copied |
| `ObjectGraph.UnfoldingIsUnique` | src/global/hash.util.ts:99-130 | an object graph has at most one finite unfolding, and it is a well-formed payload |
| `ObjectGraph.ThrowsOnCycles` | src/global/hash.util.ts:107-111 | the walk refuses if and only if a cycle is reachable |
| `ObjectGraph.SortingFirst` | src/global/hash.util.ts:119-125 | visiting the keys in sorted order gives what sorting the results afterwards gives |
| `ObjectGraph.NormalizeGraph` | src/global/hash.util.ts:99-130 | normalize over a heap ends, computes the normalised unfolding or refuses, and leaves `seen` as it found it either way |
| `ObjectGraph.NormalizeElements` | src/global/hash.util.ts:115-117 | array entries in order, refusing exactly if one of them does |
| `ObjectGraph.NormalizeMembers` | src/global/hash.util.ts:119-125 | the loop over the sorted keys: undefined skipped, `seen` restored |
| `ObjectGraph.CanonicalizeGraph` | src/global/hash.util.ts:95-130 | a TypeError exactly when a cycle is reachable, else the canonical text of the unfolding |
| `ReplayGuard.Guard.RememberNonce` | src/global/hash.util.ts:275-280 | one call prunes by its own stamp, then answers whether the nonce is new and remembers it with that stamp |
| `ReplayGuard.Guard.Prune` | src/global/hash.util.ts:291-295 | the loop forgets exactly the stamps further than the window from this one |
| `ReplayGuard.StampsStayInWindow` | src/global/hash.util.ts:275-295 | after every call all stored stamps lie within the window of that call's stamp |
| `ReplayGuard.HeldUntilFar` | src/global/hash.util.ts:267-296 | a nonce is held with its stamp exactly until the first call stamped more than the window away |
| `ReplayGuard.ReacceptedIffFar` | src/global/hash.util.ts:267-296 | a nonce is accepted again if and only if such a call came in between |
| `ReplayGuard.FutureStampIsReplayed` | src/global/hash.util.ts:259-266 | for the memory alone: three calls, two of them stamped ahead, in which the same nonce is new twice |
| `Envelope.SigningMaterialIsInjective` | src/global/hash.util.ts:142-159 | for newline-free events the signed text determines event, stamp, nonce (newlines allowed) and the payload's meaning without its envelope |
| `Envelope.NewlineEventsCollide` | src/global/hash.util.ts:138-150 | for every event, stamps, nonce and payload: moving the stamp into the event and its line out of the nonce leaves the signed text as it is |
| `Envelope.WhenEventsCollide` | src/global/hash.util.ts:138-150 | two different events can share a signed text, with nonces and object payloads, iff one is the other, a newline, and a text whose first line is an integer numeral |
| `Envelope.HexBytesInjective` | src/global/hash.util.ts:250-252 | a lower-case hex text decodes like an even-length one iff it equals it up to a trailing odd digit |
| `Envelope.SignatureComparison` | src/global/hash.util.ts:250-257 | a signature matches iff it equals the expected one up to letter case and a trailing odd digit |
| `Envelope.Verify` | src/global/hash.util.ts:200-242 | verify against a guard: verdict and new memory for every input, every failure reason in the source's order |
| `Envelope.SignatureVerdicts` | src/global/hash.util.ts:200-227 | for every payload and secret: passed iff secret, signature, stamp and nonce are there with their types, the signature is hex and decodes to the digest; and each failure reason exactly when |
| `Envelope.AcceptedIff` | src/global/hash.util.ts:200-242 | verify accepts iff that, the stamp is within the skew and the nonce is not remembered; replayed, expired and the other refusals exactly when |
| `Envelope.MemoryAfter` | src/global/hash.util.ts:229-296 | the memory after any call: untouched by a refusal before it is asked, else pruned and with the nonce if it was new |
| `Envelope.SignedText` | src/global/hash.util.ts:142-150 | the signed text: version, event, stamp, nonce and canonical payload, a line each |
| `Envelope.StrippedProps` | src/global/hash.util.ts:153-159 | the payload in it keeps every property but the three of the envelope |
| `Envelope.UnsignedWithoutSecret` | src/global/hash.util.ts:179-180 | without a secret, or with an empty one, the payload is sent as it is |
| `Envelope.BadSignatureBurnsNoNonce` | src/global/hash.util.ts:193-242 | a call that fails before the memory is consulted leaves the memory unchanged |
| `Envelope.SignMeans` | src/global/hash.util.ts:179-192 | a signed payload means the payload with its three envelope fields set, whatever it carried before |
| `Envelope.SignedCopyChecks` | src/global/hash.util.ts:179-228 | any JSON copy of a signed payload passes the signature check with its own nonce and stamp |
| `Envelope.SignedCopyVerifies` | src/global/hash.util.ts:152-242 | any JSON copy of sign(event, p), keys in any order, verifies within the skew if the nonce is not remembered |
| `Envelope.SentMessageChecks` | src/global/hash.util.ts:179-228 | a signed payload printed as it is and parsed at the other end passes the signature check |
| `Envelope.HeldWhileValid` | src/global/hash.util.ts:229-296 | from its acceptance a nonce stays remembered until the clock has left its window |
| `Envelope.SignedChecks` | src/global/hash.util.ts:179-228 | what sign returns passes the signature check under the same secret |
| `Envelope.ReacceptedIffFarMessage` | src/global/hash.util.ts:200-296 | whatever the clock: after an acceptance the next message with that nonce is accepted iff it passes the checks and a message since, itself included, passed them stamped more than the window away |
| `Envelope.FutureMessageIsReplayed` | src/global/hash.util.ts:200-296 | for all payloads and secrets: three signed messages, all within the skew at one instant, the first accepted twice |
| `Envelope.AcceptedAtMostOnce` | src/global/hash.util.ts:200-296 | with a clock that does not go back and no valid stamp ahead of it, one guard accepts each signed message at most once over any run |
| `Bytes.SplitJoin` | proxy/server.ts:375-380 | joining lines and splitting again gives the same lines |
| `Bytes.HeaderEndPastLine` | proxy/server.ts:103-104 | the end of a header is found past any line, also one that ends in CR |
| `GatewayStreams.RewriteKeepsTheRequest` | proxy/server.ts:375-381 | the rewritten request parses to the original lines in order without the client's request ids, ours last, body untouched |
| `GatewayStreams.OthersAreTheOthers` | proxy/server.ts:378 | the header lines kept are exactly those that name no request id, in order and as often as they come |
| `GatewayStreams.NamesRequestIdMeans` | proxy/server.ts:378 | a line names a request id iff it starts with "x-request-id:", each letter in either case |
| `GatewayStreams.OneRequestId` | proxy/server.ts:378-379 | exactly one header line of the rewrite names a request id: the last |
| `GatewayStreams.ProxyConnection.OnData` | proxy/server.ts:101-139 | for each chunk: nothing before the header is complete, then refusal, or the rewritten request and a pause |
| `GatewayStreams.ClientChunkingIsInvisible` | proxy/server.ts:101-139 | for every cutting of the client's bytes the reader holds the rewrite of the whole stream, once and in order |
| `GatewayStreams.ControlConnection.OnData` | tunnel/server.ts:25-31 | for each chunk: nothing before the first newline, then the line and the bytes after it, later bytes kept in order |
| `GatewayStreams.AgentChunkingIsInvisible` | tunnel/server.ts:25-66 | for every cutting, the first line and all later bytes are those of the whole stream |
| `GatewayStreams.BothDirectionsAreDelivered` | tunnel/server.ts:43-66 | on the token path the agent gets the rewritten request, the client every byte after the token line, for every cutting of both streams |
| `GatewayStreams.RequestFollowsOpen` | proxy/server.ts:249-254 | on the pooled path the agent gets the OPEN line and then the rewritten request |
| `GatewayStreams.HeartbeatReader.OnData` | tunnel/preconnect.ts:141-157 | one chunk on an idle socket: the loop answers each complete PING line and keeps the rest |
| `GatewayStreams.PongsAnswerThePings` | tunnel/preconnect.ts:136-162 | for every cutting of the stream, one PONG for each PING line of the whole |
| `GatewayStreams.FramesAreLines` | tunnel/preconnect.ts:145-150 | the frames are newline-free, and with their newlines and the newline-free rest they are the stream |
| `GatewayStreams.PingsAreCounted` | tunnel/preconnect.ts:150-152 | as many PONGs are due as there are frames that are PING when trimmed |
| `PooledStream.PreconnectSocket.OnReadable` | tunnel/preconnect.ts:35-73 | a portion of a pooled socket's bytes goes to the reader of its stage: first line, heartbeat, or the pipe |
| `PooledStream.PreconnectSocket.OnVerification` | tunnel/preconnect.ts:55-70 | the Hub's answer starts the heartbeat reader or ends the socket |
| `PooledStream.PreconnectSocket.Detach` | tunnel/preconnect.ts:164-174 | the claim takes the heartbeat reader away with its unfinished frame |
| `PooledStream.FirstLineMeans` | tunnel/server.ts:25-31 | the first-line reader finds exactly the bytes before the first newline and those after it |
| `PooledStream.StagesChange` | tunnel/preconnect.ts:35-101 | each stage of the socket is entered on its own occasions alone: a whole PRE line with nothing after it, the Hub's two answers, the claim |
| `PooledStream.ClientGetsWhatFollowsTheClaim` | tunnel/preconnect.ts:35-174 | for every cutting, timing and claim point: what arrived is the PRE line, what the heartbeat reader took, and what the client gets, in order; each PING taken was answered |
| `PooledStream.ReplyIsDelivered` | proxy/server.ts:197-254 | the client gets the agent's bytes unread at the claim and then its reply; the reply alone iff all sent before OPEN had been read, for whole lines iff also no unfinished one was held |
| `PooledStream.SplitPingReachesTheClient` | tunnel/preconnect.ts:141-174 | a claim between the halves of a PING: one half is dropped, the other reaches the client |
| `HostRoutes.RoutesExactlyTheNames` | proxy/server.ts:400-430 | a Host line is routed to r if and only if its cleaned host is the name of r and the labels are valid |
| `HostRoutes.NamesAreDistinct` | proxy/server.ts:400-426 | different routes have different host names |
| `HostRoutes.AnySpellingIsRouted` | proxy/server.ts:400-406 | a name in any letter case and with any blanks is routed iff nothing, a final dot, or a colon and anything follows it, and then to its route; otherwise refused |
| `HostRoutes.DotBeforePortIsRefused` | proxy/server.ts:405-406 | a header naming a route with a final dot before a port, empty or not, is refused |
| `HostRoutes.RoutedLabelIsNormal` | src/tunnel/tunnel.service.ts:116 | the Hub's normalisation leaves every routed service label as it is |
| `PreconnectPool.Gateway.AcceptVerified` | tunnel/preconnect.ts:58-70 | after the Hub's answer: accepted exactly below the limit, the pool object made if needed |
| `PreconnectPool.Gateway.OnClose` | tunnel/preconnect.ts:64-67 | a closing idle socket leaves the pool object its listener was made for |
| `PreconnectPool.Gateway.ClaimPreconnected` | tunnel/preconnect.ts:80-101 | the loop over the pool equals taking out the dead prefix and the next socket |
| `PreconnectPool.PoolsAreSafe` | tunnel/preconnect.ts:28-101 | over all interleavings, the Hub gap included: at most 16 idle sockets an agent, objects no longer current empty, each socket handed out at most once and no longer read |
| `PreconnectPool.ClaimTakesTheOldestLive` | tunnel/preconnect.ts:80-101 | a claim returns the first live socket in the pool's order and removes exactly it and the dead ones before it |
| `PoolOrder.PoolsAreByAge` | tunnel/preconnect.ts:58-62 | over all interleavings each pool lists its sockets in the order in which they were let in |
| `PoolOrder.OldestIdleIsClaimed` | tunnel/preconnect.ts:80-101 | over all interleavings a claim hands out, of the agent's idle sockets that are not dead, the one let in first; none exactly if all are dead |
| `PoolOrder.LetInBelowTheLimit` | tunnel/preconnect.ts:58-70 | a verified socket joins its agent's idle sockets iff these are fewer than 16, else it is refused |
| `PoolOrder.RefusedByTheHub` | tunnel/preconnect.ts:55-56 | a socket the Hub refuses joins nothing |
| `PoolOrder.CloseTakesOnlyIt` | tunnel/preconnect.ts:64-67 | a closing socket leaves the idle sockets of its agent, and no other does |
| `PreconnectPool.DeadSlots` | tunnel/preconnect.ts:55-67 | an idle slot is held by a closed socket iff the socket closed while the Hub was verifying it |
| `PreconnectPool.DeadSlotsLast` | tunnel/preconnect.ts:64-97 | and it holds the slot until a claim of its agent |
| `PreconnectPool.StepKeepsInv` | tunnel/preconnect.ts:35-101 | every step keeps the pool invariant |
| `TokenRegistry.Registry.RegisterSocket` | tunnel/registry.ts:22-34 | a registration is live with a timer of its own; an entry it replaces leaves its timer pending |
| `TokenRegistry.Registry.ClaimToken` | tunnel/registry.ts:36-41 | a claim returns what is registered, if anything, and ends that registration and its timer |
| `TokenRegistry.Registry.ReleaseSocket` | tunnel/registry.ts:43-48 | a release acts only for the socket that is registered |
| `TokenRegistry.Registry.OnTimer` | tunnel/registry.ts:29-32 | a timer removes whatever is registered under its token |
| `TokenRegistry.Registry.OnTokenLine` | tunnel/server.ts:43-66 | an agent's token line: claim first, else register |
| `TokenRegistry.RegisterNeedsDeadToken` | tunnel/registry.ts:22-34 | a registration keeps the invariant if and only if its token is not live |
| `TokenRegistry.StaleTimerLosesTheNewcomer` | tunnel/registry.ts:29-33 | registering a live token again lets the old timer drop the new socket |
| `TokenRegistry.EveryRegistrationEndsOnce` | tunnel/registry.ts:22-48 | over every run with tokens registered only while not live: a timer is pending exactly for each live entry, and each registration ends at most once, by claim, timeout or release |
| `TokenRegistry.ClaimMeans` | tunnel/registry.ts:36-41 | a claim hands out socket and first bytes of the one registration there is, ends it, and finds nothing a second time |
| `TokenRegistry.ReleaseMeans` | tunnel/registry.ts:43-48 | a release changes something iff its socket is the one registered, and then ends that registration |
| `TokenRegistry.OthersAreLeftAlone` | tunnel/registry.ts:22-48 | an event that is not about a token leaves its registration as it is |
| `TokenRegistry.WaitingIsPaired` | tunnel/server.ts:43-66 | over every run: a waiting client is paired with the first agent that names its token, with its own bytes, and with that one only |
| `AgentUpdate.Updates.RequestUpdate` | src/agent/agent-update.service.ts:57-97 | a request: all refusals in the source's order, else the row and an armed timer |
| `AgentUpdate.RefusalsAreExact` | src/agent/agent-update.service.ts:57-88 | each refusal exactly when it is the first that applies; none iff the tag is well formed, the agent known, online, recent enough, connected and not updating, and the release installable |
| `AgentUpdate.RequestBegins` | src/agent/agent-update.service.ts:57-97 | a request begins a flight exactly then: target, start, number and a timer due in ten minutes; otherwise nothing changes |
| `AgentUpdate.Updates.RecordProgress` | src/agent/agent-update.service.ts:103-113 | a progress line moves requested to pulling and nothing else |
| `AgentUpdate.Updates.RecordFailure` | src/agent/agent-update.service.ts:119-131 | a reported failure ends the flight and clears its timer |
| `AgentUpdate.Updates.OnDisconnect` | src/agent/agent.gateway.ts:425-441 | losing the current socket is the expected restart in flight, else it arms the offline timer; any other socket is ignored |
| `AgentUpdate.Updates.OnRegister` | src/agent/agent.gateway.ts:394-423 | an agent is made or brought online, loses its offline timer, and settles its flight |
| `AgentUpdate.Updates.DisconnectAgent` | src/agent/agent.gateway.ts:524-539 | the Hub forgets the current socket and its offline timer |
| `AgentUpdate.Updates.OnOfflineTimer` | src/agent/agent.gateway.ts:546-554 | an agent not back by then is offline |
| `AgentUpdate.Updates.AcknowledgeResult` | src/agent/agent-update.service.ts:182-184 | acknowledging makes the row idle without target or start, and leaves a pending timer pending |
| `AgentUpdate.Updates.OnTimer` | src/agent/agent-update.service.ts:186-222 | a due timer fails the flight and puts an absent agent offline; after a finished flight it does nothing |
| `AgentUpdate.StepKeepsInv` | src/agent/agent-update.service.ts:47-222 | every event keeps: an update in flight has a valid target and the timer its own request armed, due ten minutes after it |
| `AgentUpdate.StepIsForward` | src/agent/agent-update.service.ts:47-222 | one event moves a flight forward only, keeps its target and start, and only an acknowledgement makes it idle |
| `AgentUpdate.PhaseChanges` | src/agent/agent-update.service.ts:47-222 | each phase is entered on its own occasions alone, and the flight number counts the begun flights |
| `AgentUpdate.RowChanges` | src/agent/agent-update.service.ts:47-222 | the same for status, version, target and start of an agent's row |
| `AgentUpdate.RowsAreMade` | src/agent/agent.gateway.ts:394-423 | a row is made by registering alone, and is then online and idle |
| `AgentUpdate.TimersAndSockets` | src/agent/agent.gateway.ts:394-554 | when exactly an agent has its update timer, its socket and its offline timer after an event |
| `AgentUpdate.FlightsDoNotOverlap` | src/agent/agent-update.service.ts:78-97 | over every run the flight number rises iff a request began a flight, which none does while one is under way |
| `AgentUpdate.RunIsSafe` | src/agent/agent-update.service.ts:47-222 | over every run, Hub restarts included: guarded, forward only, one result a flight |
| `AgentUpdate.FlightsAreTimed` | src/agent/agent-update.service.ts:42-97 | from any rows at start-up, an update in flight always has its own timer due within ten minutes of its request |
| `AgentUpdate.TimerFailsItsOwnFlight` | src/agent/agent-update.service.ts:186-222 | a firing timer fails only the flight that armed it and touches no other agent |
| `AgentUpdate.ReconnectDecides` | src/agent/agent-update.service.ts:161-179 | coming back in flight means succeeded iff the reported version is the target, else rolled back |
| `AgentUpdate.RestartingAgentsFate` | src/agent/agent-update.service.ts:138-222 | over every run after an agent in flight disconnected, without its return or a Hub restart: offline iff its timer fired before any acknowledgement or failure report, armed until one of the three, and "restarting" for good if cut off |
| `AgentUpdate.StrandedAgents` | src/agent/agent-update.service.ts:119-184 | both ways to be cut off: acknowledged, or reported failed by a late socket; no timer is left that could fire |
| `RouteCache.Router.SendProxyInfo` | src/tunnel/tunnel.service.ts:115-247 | one lookup: cached or from the tables, every outcome, and what is stored |
| `RouteCache.Router.InvalidateRouteCache` | src/tunnel/tunnel.service.ts:101-103 | the cache is emptied |
| `RouteCache.Router.BlockServiceTraffic` | src/services/service.service.ts:597-620 | blocking: refused when missing or removed, the first time kept, the mode replaced, the cache emptied |
| `RouteCache.Router.UnblockServiceTraffic` | src/services/service.service.ts:623-638 | unblocking clears the block and the cache |
| `RouteCache.KeyIsUnambiguous` | src/tunnel/tunnel.service.ts:123 | a cache key made of slash-free labels is the key of no other pair, whatever is asked |
| `RouteCache.EveryEntryHasASource` | src/tunnel/tunnel.service.ts:127-232 | over every run each cache entry was the database's answer at an earlier query for the same labels, for a service not blocked since |
| `RouteCache.AnswersAreRecentAndUnblocked` | src/tunnel/tunnel.service.ts:115-247 | every successful answer is one the uncached lookup gave now or less than five seconds ago, for a service that is not blocked now |
| `RouteCache.RefusalsAreCurrent` | src/tunnel/tunnel.service.ts:150-239 | failures are never cached: a routing refusal is the database's own answer, and a routable service answers at once |
| `RouteCache.ResolveMeans` | src/tunnel/tunnel.service.ts:150-232 | the uncached lookup, from the rows: the first active workspace of the label, its first published endpoint, and each refusal exactly when; the route is that agent and port |
| `RouteCache.SwitchesMean` | src/services/service.service.ts:597-638 | blocking and unblocking change one row's block and empty the cache, or nothing at all |
| `RouteCache.HiddenLooksAbsent` | src/tunnel/tunnel.service.ts:201-218 | after a hidden block the answer is that of a missing service, after a notice block "blocked" |
| `RouteCache.DeletedEndpointStillAnswers` | src/tunnel/tunnel.service.ts:125-143 | within five seconds a deleted endpoint is still routed to |
| `PreconnectVerification.Verifier.Verify` | src/tunnel/tunnel.service.ts:47-74 | verifyPreconnect with its cache and retry: verdict, cache and memory |
| `PreconnectVerification.Verifier.CacheSigningSecret` | src/tunnel/tunnel.service.ts:105-109 | reads the stored secret and caches it, null included, for a minute |
| `PreconnectVerification.Verifier.RegisterAgent` | src/agent/agent.service.ts:92-187 | registration fills in a missing secret, never replaces one, or makes a new row |
| `PreconnectVerification.OneVerifyDecides` | src/tunnel/tunnel.service.ts:61-71 | whatever was cached the outcome is that of a single verify on the memory as found: the retry is never a replay of the first attempt |
| `PreconnectVerification.OnceMeans` | src/tunnel/tunnel.service.ts:47-74 | a preconnect is verified as the event tunnel:pre over the agent's uuid alone, with five minutes of skew and of memory |
| `PreconnectVerification.CacheMeans` | src/tunnel/tunnel.service.ts:47-74 | the stored secret is read and kept for a minute iff none was kept or the kept one did not fit |
| `PreconnectVerification.RegisterMeans` | src/agent/agent.service.ts:113-187 | a registration gives a secret to a known agent without one, else to a new one, and to no other |
| `PreconnectVerification.StepKeepsInv` | src/agent/agent.service.ts:126-148 | a secret once stored stays, and a cached one is the stored one or was read before there was one |
| `PreconnectVerification.CacheOnlyRefuses` | src/tunnel/tunnel.service.ts:47-74 | the result differs from one verify against the stored secret iff an outdated null is cached, and then it is a refusal without trace |
| `PreconnectVerification.RefusedRightAfterRegistering` | src/tunnel/tunnel.service.ts:54-71 | that difference occurs: ask, register, ask again within a minute with a good signature |
| `PreconnectVerification.AcceptedByTheStoredSecret` | src/tunnel/tunnel.service.ts:47-74 | over every run a preconnect is accepted only if the stored secret accepts it at that moment |
| `PreconnectVerification.NoPreconnectIsReplayed` | src/tunnel/tunnel.service.ts:47-74 | over every run with a sane clock no signed line is accepted twice, retries and re-registrations included |
| `EmailVerification.AuthTables.IssueOrReuse` | src/auth/auth.service.ts:64-115 | refused with the seconds left during the cooldown, else the latest reusable code is sent again or a new one made |
| `EmailVerification.AuthTables.VerifyEmail` | src/auth/auth.service.ts:36-55 | an address with an account is refused; any other is issued a code |
| `EmailVerification.AuthTables.RequestExistingEmailVerification` | src/auth/auth.service.ts:123-142 | unknown and already verified accounts are refused; an unverified one is issued a code |
| `EmailVerification.AuthTables.VerifyExistingEmail` | src/auth/auth.service.ts:151-186 | a live code of an existing account verifies it and is consumed together; every failure changes nothing |
| `EmailVerification.AuthTables.RegisterUser` | src/auth/auth.service.ts:214-261 | a live code of a new address makes the account and is consumed together; every failure changes nothing |
| `EmailVerification.CeilSeconds` | src/auth/auth.service.ts:75-78 | the whole seconds left: positive iff any time is left |
| `EmailVerification.StepKeepsInv` | src/auth/auth.service.ts:64-259 | every step keeps: codes differ, and of two codes of an address the earlier was given up for good when the later was made |
| `EmailVerification.AtMostTwoLiveCodes` | src/auth/auth.service.ts:64-115 | over every run an address has at most two live unconsumed codes at any time |
| `EmailVerification.SendsAreSpaced` | src/auth/auth.service.ts:67-85 | over every run two mails to an address are at least a cooldown apart |
| `EmailVerification.MailedCodeLasts` | src/auth/auth.service.ts:87-108 | every code mailed is good for at least min(TTL, cooldown) more |
| `EmailVerification.CodesAreConsumedOnce` | src/auth/auth.service.ts:151-259 | over every run no code is consumed twice, by whichever route |
| `EmailVerification.RedeemingIsLocal` | src/auth/auth.service.ts:151-259 | a redemption consumes one live row of that code and changes only the account of its address; a failed one changes nothing |
| `EmailVerification.ValidMeansUsable` | src/auth/auth.service.ts:198-212 | the link check says valid iff consuming the code would find it, and names the same address |
| `EmailOutcomes.IssueOutcome` | src/auth/auth.service.ts:64-115 | no mail exactly during the cooldown, with the least whole wait; else the newest code that still serves again, with its own time of making, or a new one iff there is none |
| `EmailOutcomes.RequestOutcome` | src/auth/auth.service.ts:36-142 | each refusal of a request exactly when, and otherwise the mail |
| `EmailOutcomes.CodesAreDistinct` | src/auth/auth.service.ts:103-108 | over every run the codes differ |
| `EmailOutcomes.VerifyExistingOutcome` | src/auth/auth.service.ts:151-171 | with distinct codes: verified iff an unused code of that address is within its lifetime and the address has an account; each failure exactly when |
| `EmailOutcomes.RegisterOutcome` | src/auth/auth.service.ts:214-240 | with distinct codes: registered iff such a code exists, the passwords agree and the address has no account; each failure exactly when |
| `EmailOutcomes.CheckOutcome` | src/auth/auth.service.ts:198-212 | with distinct codes: not found, consumed, expired or valid for its address, each exactly when |
| `Semver.ParseFormats` | src/global/semver.util.ts:18-29 | parsing a formatted version returns it, build metadata dropped and blanks around it ignored |
| `Semver.ParseMeans` | src/global/semver.util.ts:18-29 | a text parses as a version iff, trimmed, it is spelled by three digit texts with an optional pre-release and build metadata that say so |
| `Semver.ComparePreScan` | src/global/semver.util.ts:41-54 | the index scan computes the recursive comparison |
| `Semver.IdentifierPrecedence` | src/global/semver.util.ts:32-39 | identifiers compare as section 11.4 of SemVer 2.0.0 says |
| `Semver.FirstDifferenceDecides` | src/global/semver.util.ts:41-54 | the first differing identifier decides, else the shorter list is lower |
| `Semver.ComparisonIsPrecedence` | src/global/semver.util.ts:61-72 | the sign of the comparison is the precedence of section 11 of SemVer 2.0.0, defined on its own |
| `Semver.CompareIsTotalPreorder` | src/global/semver.util.ts:61-72 | compareSemver is a total preorder on all strings with the unparseable ones as one bottom class |
| `Semver.CompareMeans` | src/global/semver.util.ts:61-72 | one text compares below another iff that one parses and, if both do, its version precedes |
| `Semver.SupportMeans` | src/global/agent-capability.ts:13-16 | remote updates are supported iff the reported version parses and is 0.6.0 or above, pre-releases of 0.6.0 excluded |
| `ReleaseCatalog.Catalog.RunSync` | src/releases/release-catalog.service.ts:167-222 | the loop over a page: each listed version refreshed by its last entry, then the yanking |
| `ReleaseCatalog.Catalog.MarkYanked` | src/releases/release-catalog.service.ts:231-241 | rows not seen and not older than the oldest seen are marked |
| `ReleaseCatalog.Catalog.AssertInstallable` | src/releases/release-catalog.service.ts:315-328 | passes iff the version is known and nothing blocks it, else the reason |
| `ReleaseCatalog.Catalog.BlockRelease` | src/releases/release-catalog.service.ts:336-347 | a known version gets the reason as manual block and nothing else changes; an unknown one is refused |
| `ReleaseCatalog.Catalog.UnblockRelease` | src/releases/release-catalog.service.ts:367-378 | a known version loses its manual block and nothing else changes; an unknown one is refused |
| `ReleaseCatalog.Catalog.FindUpgradeFor` | src/releases/release-catalog.service.ts:301-312 | the first installable stable release of the sorted list, if it is above the reported version |
| `ReleaseCatalog.SyncOutcome` | src/releases/release-catalog.service.ts:182-241 | a sync un-yanks every seen version, yanks exactly the unseen ones not older than the oldest seen, leaves older rows and every manual block |
| `ReleaseCatalog.SyncIsIdempotent` | src/releases/release-catalog.service.ts:167-241 | syncing the same page again changes nothing |
| `ReleaseCatalog.ManualBlockSurvives` | src/releases/release-catalog.service.ts:205-216 | over any run of syncs, blocks and unblocks the manual block is the operator's last word |
| `ReleaseCatalog.BlockedStaysBlocked` | src/releases/release-catalog.service.ts:336-402 | a blocked version stays uninstallable through any syncs until unblocked, provided the reason is not empty |
| `ReleaseCatalog.RunKeepsVersions` | src/releases/release-catalog.service.ts:243-258 | no run of syncs, blocks and unblocks makes a row without a version |
| `ReleaseCatalog.ListedDescends` | src/releases/release-catalog.service.ts:266-273 | the list is in descending precedence |
| `ReleaseCatalog.UpgradeIsHighest` | src/releases/release-catalog.service.ts:301-328 | over every run of syncs, blocks and unblocks, in any row order: the offered upgrade is installable, stable, highest, above a reported version; none exactly if there is none, and none once it runs |
| `ReleaseOutcomes.ListedRowIsWritten` | src/releases/release-catalog.service.ts:182-218 | after a sync a listed version's row is that of its last entry in every field, un-yanked, with the manual block as it was |
| `ReleaseOutcomes.OtherRowsStay` | src/releases/release-catalog.service.ts:231-241 | every other row stays and is marked now iff it was not before and some listed release is no younger; there are no further rows |
| `ReleaseOutcomes.ReasonsAreExact` | src/releases/release-catalog.service.ts:386-403 | each reason against a release exactly when none before it applies; none iff nothing blocks it and its protocol is 0 or 1 |
| `ReleaseOutcomes.OperatorWritesOneField` | src/releases/release-catalog.service.ts:336-378 | blocking and unblocking write the manual block of one known row |
| `ReleaseOutcomes.EqualVersionsKeepTheirOrder` | src/releases/release-catalog.service.ts:266-273 | equally high versions are listed in the order the rows came in |
| `ReleaseOutcomes.ListedOnce` | src/releases/release-catalog.service.ts:266-273 | each row is listed once |
| `ReleaseOutcomes.FirstOfEqualsIsOffered` | src/releases/release-catalog.service.ts:301-312 | of equally high installable releases the later is never the one offered |
| `WorkspaceDomains.Workspaces.CreateWorkspace` | src/workspaces/workspace.service.ts:49-86 | creation: activated if it can be, else stored inactive; the name key can refuse it after the record was made |
| `WorkspaceDomains.Workspaces.TryActivateSubdomain` | src/workspaces/workspace.service.ts:92-103 | a record is asked for only below the limit and without conflict, and its id returned only if DNS confirms |
| `WorkspaceDomains.Workspaces.ToggleSubdomain` | src/workspaces/workspace.service.ts:110-163 | on: limit, conflict and DNS failure leave the row as it was; off: the row is freed whatever DNS answers |
| `WorkspaceDomains.Workspaces.UpdateSubdomain` | src/workspaces/workspace.service.ts:171-226 | blank removes and frees, an active one is renamed only if DNS confirms, an inactive one is only stored |
| `WorkspaceDomains.Workspaces.DeleteWorkspace` | src/workspaces/workspace.service.ts:271-314 | a held record must be deleted first, otherwise the workspace stays as it was |
| `WorkspaceDomains.Workspaces.CreateDnsRecord` | src/utility/cloudflare.util.ts:48-67 | a record id is returned only for a confirmed creation, and the zone changes unless it was refused |
| `WorkspaceDomains.Workspaces.UpdateDnsRecord` | src/utility/cloudflare.util.ts:69-85 | true only for a confirmed renaming, and the zone changes unless it was refused |
| `WorkspaceDomains.Workspaces.DeleteDnsRecord` | src/utility/cloudflare.util.ts:87-100 | true only for a confirmed deletion, and the zone changes unless it was refused |
| `WorkspaceDomains.StepKeepsInv` | src/workspaces/workspace.service.ts:29-226 | every step keeps: active iff a record id is held, active subdomains differ and stay within the limit |
| `WorkspaceDomains.ZoneIsKeptUnlessLost` | src/workspaces/workspace.service.ts:171-226 | a step leaves every active workspace's record under its current name iff no renaming or deletion was carried out but reported as failed |
| `WorkspaceDomains.LostDeletionBreaksTheZone` | src/workspaces/workspace.service.ts:285-292 | a deletion carried out and reported as failed: the workspace stays active without its record |
| `WorkspaceDomains.LostRenamingBreaksTheZone` | src/workspaces/workspace.service.ts:207-217 | a renaming carried out and reported as failed: row and record have different names |
| `WorkspaceDomains.LostCreationLeavesAnOrphan` | src/workspaces/workspace.service.ts:64-84 | a creation carried out and reported as failed: a record without a workspace |
| `WorkspaceDomains.IgnoredRefusalLeavesAnOrphan` | src/workspaces/workspace.service.ts:147-162 | a refused deletion ignored on switching off: a record without a workspace |
| `WorkspaceDomains.OrphansComeFromLeaks` | src/workspaces/workspace.service.ts:49-163 | a step leaves a record without a workspace iff a creation was not reported or could not be stored, or a refused deletion was ignored |
| `WorkspaceDomains.DomainsAreSafe` | src/workspaces/workspace.service.ts:29-314 | both over every run of create, toggle, update and delete |
| `WorkspaceDomains.ZoneIsExact` | src/workspaces/workspace.service.ts:29-314 | over every run without such mishaps the zone is exactly the active workspaces' records |
| `WorkspaceDomains.TurningOffAndOn` | src/workspaces/workspace.service.ts:121-162 | a slot switched off can be switched on again at once |
| `WorkspaceOutcomes.CountsActiveRows` | src/workspaces/workspace.service.ts:29-34 | the count is the number of rows that are active and not deleted |
| `WorkspaceOutcomes.CountsRowsOf` | src/workspaces/workspace.service.ts:50-55 | the default name is numbered by all rows of the owner, deleted ones too |
| `WorkspaceOutcomes.CreateOutcome` | src/workspaces/workspace.service.ts:49-86 | creation: refused iff the owner has a row of that name; the row and the zone otherwise, active iff a label was given, had room, was free and confirmed |
| `WorkspaceOutcomes.ToggleOutcome` | src/workspaces/workspace.service.ts:110-163 | switching: success and each refusal exactly when, the row and the zone after it |
| `WorkspaceOutcomes.UpdateOutcome` | src/workspaces/workspace.service.ts:171-226 | changing the label: success and each refusal exactly when, the row, an inactive one too, and the zone after it |
| `WorkspaceOutcomes.DeleteOutcome` | src/workspaces/workspace.service.ts:271-314 | deletion: success and each refusal exactly when; the row is marked, inactive and without record |
| `WorkspaceOutcomes.DeletedStaysDeleted` | src/workspaces/workspace.service.ts:271-314 | over every run a deleted workspace stays as it is and is found by no request |
| `ServiceEndpoints.NormalizePortMappings` | src/services/service.service.ts:129-156 | the loop over the mappings equals the specification, errors included |
| `ServiceEndpoints.PassesIffDistinct` | src/services/service.service.ts:146-153 | mappings pass iff no host port and no container port comes twice |
| `ServiceOutcomes.ValidPortsOfBoth` | src/services/service.service.ts:131-138 | of a list of mappings those in range stay, in order: what two lists give, their concatenation gives |
| `ServiceOutcomes.ValidPortsOfOne` | src/services/service.service.ts:135-137 | and a single one stays iff both its ports lie from 1 to 65535 |
| `ServiceOutcomes.FirstRepeatIsNamed` | src/services/service.service.ts:146-153 | the first mapping that repeats a port names the error, its host port before its container port |
| `ServiceOutcomes.MappingsOutcome` | src/services/service.service.ts:129-156 | the mappings in range are used, or the fallback alone if there are none; refused iff a port comes twice |
| `ServiceEndpoints.LabelOfAnEntry` | src/services/service.service.ts:171-186 | an entry with ports in range is refused iff its label is malformed, unpublished iff its label is left out, else published under its normalised label |
| `ServiceOutcomes.EntriesOfOne` | src/services/service.service.ts:171-186 | an entry is skipped iff its ports are out of range, else published, or refused iff its label is no apex and no label of 1 to 63 letters, digits and inner hyphens |
| `ServiceOutcomes.EntriesOfBoth` | src/services/service.service.ts:171-188 | a list is refused iff one of its entries is, else its entries are published one after the other |
| `ServiceOutcomes.EndpointsOutcome` | src/services/service.service.ts:188-195 | without a usable entry each mapping gets an endpoint, the first under the label there was |
| `ServiceEndpoints.NullIsALabel` | src/services/service.service.ts:178-179 | an endpoint given with subdomain null is published under the label "null" |
| `ServiceEndpoints.ServiceTable.ReplaceServiceEndpoints` | src/services/service.service.ts:197-237 | refused on a repeated label or one another service of the workspace uses, else exactly the service's rows are replaced |
| `ServiceEndpoints.ServiceTable.UpdateServiceSubdomain` | src/services/service.service.ts:732-781 | the lowest endpoint and the service get the label, or an endpoint is made for it; refused if another service uses it |
| `ServiceEndpoints.ServiceTable.UpdateServiceEndpoints` | src/services/service.service.ts:783-816 | the given endpoints, or one a mapping if none is usable, replace the old; the service takes the first public label |
| `ServiceEndpoints.ServiceTable.CreateService` | src/services/service.service.ts:264-362 | the service row is written before its endpoints are checked |
| `ServiceEndpoints.ServiceTable.RedeployService` | src/services/service.service.ts:434-496 | the new ports are written before the endpoints are checked |
| `ServiceEndpoints.ServiceTable.DeleteService` | src/services/service.service.ts:364-389 | deletion leaves the endpoints |
| `ServiceEndpoints.StepKeepsInv` | src/services/service.service.ts:197-237 | every step keeps: a public label of a workspace belongs to one service |
| `ServiceEndpoints.LabelsAreSafe` | src/services/service.service.ts:197-237 | and so over every run |
| `ServiceEndpoints.StepIsUnambiguous` | src/services/service.service.ts:732-781 | a step keeps labels to one endpoint each iff it is not a change of subdomain to another label of the same service |
| `ServiceEndpoints.RepeatingIsAmbiguous` | src/services/service.service.ts:737-758 | such a change: two endpoints of one service end up under one label |
| `ServiceEndpoints.LabelsAreUnambiguous` | src/services/service.service.ts:732-781 | and so over every run without such a change |
| `ServiceEndpoints.RowsAreLocal` | src/services/service.service.ts:197-237 | no step touches another service's endpoints |
| `ServiceEndpoints.ServicesAreLocal` | src/services/service.service.ts:732-816 | no step touches another service's row |
| `ServiceEndpoints.AHostReachesOneService` | src/tunnel/tunnel.service.ts:147-188 | active workspace labels and service labels together reach at most one service |
| `ServiceEndpoints.DeletedServiceKeepsItsLabels` | src/services/service.service.ts:737-747 | a deleted service's label stays refused to every other service of the workspace |
| `ServiceOutcomes.OthersOfTwo` | src/services/service.service.ts:222-224 | replacing keeps the rows of the other services in their order: what two lists keep, their concatenation keeps |
| `ServiceOutcomes.OthersOfOne` | src/services/service.service.ts:222-224 | and a single row is kept iff it is another service's |
| `ServiceOutcomes.ReplaceOutcome` | src/services/service.service.ts:197-237 | replaced iff no label comes twice and none is another service's in the workspace; the new rows are the endpoints in order, after all others |
| `ServiceOutcomes.SubdomainOutcome` | src/services/service.service.ts:732-781 | a change of subdomain: each refusal exactly when, else the first row of the service and the service itself get the label |
| `ServiceOutcomes.UpdateEndpointsOutcome` | src/services/service.service.ts:783-816 | new endpoints: refused without a trace, or in place, the service taking the first label among them |
| `ServiceOutcomes.ExistingLabelMeans` | src/services/service.service.ts:445-451 | a redeployment falls back on the label of the service's first public row, else on its own |
| `ServiceOutcomes.CreateOutcome` | src/services/service.service.ts:312-346 | a new service: no row iff ports or labels are malformed, else its row, and its endpoints iff they are taken |
| `ServiceOutcomes.RedeployOutcome` | src/services/service.service.ts:434-497 | a redeployment writes the ports before the labels are looked at and keeps the service's own label |
| `ServiceOutcomes.DeleteOutcome` | src/services/service.service.ts:364-389 | deletion: both refusals exactly when; the row is marked and nothing else changes |
| `RoutingTables.OrderIsInvisible` | src/tunnel/tunnel.service.ts:150-188 | with one workspace and one service a label, row order decides at most between ports of that service |
| `RoutingTables.LookupIgnoresRowOrder` | src/tunnel/tunnel.service.ts:150-188 | for the tables any runs of workspace and service handlers leave, every row order gives the same service and agent or the same refusal, and the same port unless a service repeated its label |
| `TrafficSync.TrailingDateList` | src/traffic/traffic-sync.service.ts:78-87 | the loop gives yesterday and the days before it |
| `TrafficSync.BackfillIsExact` | src/traffic/traffic-sync.service.ts:101-107 | exactly the whole days before today inside the retention window less fifteen minutes and within the maximum, newest first, no gap |
| `TrafficSync.TotalIgnoresOrder` | src/traffic/traffic-sync.service.ts:209-212 | the day's total does not depend on the order of the hosts |
| `TrafficSync.TotalOfFew` | src/traffic/traffic-sync.service.ts:209-212 | no host counts nothing, a single one its bytes iff it is a workspace's |
| `TrafficSync.WorkspaceHostnameMeans` | src/traffic/traffic-sync.service.ts:26-33 | a host is a workspace's iff it is one or two labels and "optics.run", the label next to that not one of the six reserved |
| `TrafficSync.DatesMean` | src/traffic/traffic-sync.service.ts:170-201 | a round asks, on an empty table, for exactly the whole days of the last forty inside the retention less fifteen minutes, a week if it is not known; else for the last three |
| `TrafficSync.SyncMeans` | src/traffic/traffic-sync.service.ts:170-243 | a day has a row after a round iff it had one or was fetched, and is of the last forty if the round pruned |
| `TrafficSync.RoutedHostsAreCounted` | src/traffic/traffic-sync.service.ts:26-33 | a host the gateway routes is counted iff its workspace label is not reserved |
| `TrafficSync.TrafficDaily.SyncOneDay` | src/traffic/traffic-sync.service.ts:203-226 | the day's row becomes the total of the workspace hosts fetched, whatever it was; a failed fetch changes nothing |
| `TrafficSync.TrafficDaily.PruneOldRows` | src/traffic/traffic-sync.service.ts:235-243 | exactly the rows older than forty days are removed |
| `TrafficSync.TrafficDaily.RunSync` | src/traffic/traffic-sync.service.ts:170-187 | one round: a failing day does not stop the others |
| `TrafficSync.SyncKeepsInv` | src/traffic/traffic-sync.service.ts:170-243 | a round leaves rows of completed days only, and of the last forty if it pruned |
| `TrafficSync.TableIsBounded` | src/traffic/traffic-sync.service.ts:235-243 | over every run, after each pruning round at most the last forty completed days |
| `TrafficSync.PublicWindowIsBounded` | src/stats/stats.service.ts:88-124 | over every run at most thirty days are public, so the advertised window is the number of rows read |
| `TrafficSync.RowsAreLastTotals` | src/traffic/traffic-sync.service.ts:214-225 | over every run a day's row is the total of the last answer fetched for it: nothing is counted twice |

## Left out

- HMAC-SHA256, random values, bcrypt and token signing: foreign calls. Nothing is claimed about forging.
- The object key `__proto__`: assigning it does not make a property, so it is outside the domain of payloads.
- Numbers that are not integers, and integers JavaScript prints with an exponent or rounds; bigint values and functions
  in payloads.
- A toJSON that returns objects with toJSON for ever: the source does not end on it (`ObjectGraph` asks for a rank).
- verify without a guard, as registration uses it: it is `CheckFresh` in `Envelope`.
- Envelope.SignedCopyVerifies: for plain object payloads, as sign spreads its payload into one.
- The JSON reader in `Json` reads compact JSON with integers, which is what the printer writes.
- GatewayStreams: the decision to route is a function of the header lines; `HostRoutes` models that decision on text.
  Lower-casing and trimming are ASCII, and headers are bytes that decode without loss.
- The ten seconds of a token's timer and the three seconds of an offline timer: an armed one may fire at any time here.
- One HTTP response per client, error pages, logs and timings: presentation, or not promised by the source.
- PooledStream: the format checks of a PRE line beyond its verb (tunnel/preconnect.ts:46-53) count as the Hub's refusal.
- Races between the awaits of Hub handlers.
- RouteCache: lower-casing is ASCII, and a lookup's reading of the tables is one instant.
- Messages kept beside an update's phase, and the notices sent to consoles.
- Semver: version numbers are unbounded; JavaScript rounds those above 2^53.
- Text columns compare exactly; the database's collation, which may ignore case, is not modelled.
- AgentUpdate: a disconnect is that of the agent's current socket, since the gateway ignores older ones.
- Owners of services and the agents' presence where a handler only passes them on; a request for something not owned is
  one for something not found.
- ServiceEndpoints: component names, sources, environments, service names and the command sent to the agent.
- WorkspaceDomains: the reserved names and label format of the forms, which only narrow what reaches the handlers.
- The wording of a refused release, and the freshness timer and failure texts of the catalogue's fetch.
- TrafficSync: dates as day numbers, not calendar text; overlapping rounds, which the source merges into one.
- E-mail addresses compare as exact text, and a mail that cannot be sent counts as sent.
- Console relays, metrics, terminals, refresh tokens, two-factor codes, statistics caching: short look-ups that would
  only add easy members.
- Framework modules, guards, controllers, cookies and CORS.
