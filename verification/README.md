# BeamSocket in Dafny

A model of the Rust core of BeamSocket (a clustered WebSocket engine) and proofs about it. `dafny verify dfyconfig.toml`
checks everything.

## What is modelled

- **Interest routing** (`Interest`, `InterestTable`, `InterestCluster`, `InterestLimits`, `InterestCodec`). Each node
  advertises the rooms and users it hosts over a lossy, edge-triggered, per-origin-numbered protocol with digest repair.
  A cluster is a map of tables plus the set of all messages ever sent; a message may be delivered late, twice, out of
  order, anywhere, or never.
- **SWIM membership** (`Swim`, `SwimTable`, `SwimHeal`, `SwimCluster`, `SwimGossip`, `SwimProbe`, `SwimAddresses`,
  `MembershipSync`, `SwimLimits`, `MembershipCodec`). Precedence merge, refutation, push-pull heal, gossip budgets, the
  probe schedule and the addresses that travel with claims.
- **Mesh links** (`Frame`, `Hello`, `Handshake`, `HandshakeObject`, `HandshakeAgreement`, `PeerQueue`, `Coalescing`,
  `PeerLink`, `RelaySend`). The handshake machine and its driver over two FIFO channels; the byte-bounded queue, the
  coalescing writer and the framed reader.
- **Connections and rooms** (`ConnectionIds`, `Registry`, `RegistryObject`, `RoomSteps`, `RoomVerbs`, `RoomLocks`,
  `RoomsObject`, `TopN`, `TopReports`). Generational ids; room membership as interleaved critical sections, what each
  verb achieves among them, and the two kinds of lock under it; bounded top-N reports.
- **Fan-out and per-connection machinery** (`Mailbox`, `MailboxObject`, `Writer`, `WriterControl`, `Fanout`,
  `Authorizer`, `BridgeCodec`, `Bridge`). Overflow policies, writer loop, adaptive exclusions, the bounded authorize
  round trip, the event bridge.
- **The cluster** (`Engine`, `EngineSteps`, `EngineVerbs`, `EngineLimits`, `ClusterRuns`, `Relay`, `RelayHop`,
  `ClusterDelivery`). Engine verbs as interleaved steps over the mesh, and one broadcast as local fan-out plus one hop
  over every link chosen: suppression, bounded queue, coalescing writer, framed reader, dispatch, fan-out.

`Prelude`, `Ordering` and `Wire` hold shared facts about sequences, orders and bytes.

Modules named after a component define its operations on values and prove what they promise. Modules ending in `Table`
or `Object`, and `PeerLink`, hold the same component as a class whose methods update fields in place; each method's
postcondition ties the new state to the value operation. Protocols are state machines: a step carries every choice the
environment makes (delivery, interleaving, timers, list orders of hash maps), and results quantify over all runs.

## Where the code and its promises differ

- *A dropped edge heals within one digest cycle* (interest.rs:17-20, 301-304). Not for every set: two 11-byte room names
  share an FNV-1a digest hash, and `InterestLimits.DigestNeverHeals` reaches a table no digest repairs.
  `InterestCluster.PassConverges` gives the exact condition.
- *Snapshots at an equal version repair divergence* (interest.rs:245-248). They can also cause it: a forwarded snapshot
  still in flight can undo a repair (`InterestLimits.LateForwardUndoesRepair`). `InterestCluster.DelayedSnapshotStability`
  gives the exact condition.
- *The 64-byte frame floor leaves room for every control frame* (frame.rs:18-22). The HELLO frame needs 60 bytes plus
  the cluster name, so `HandshakeAgreement.FloorTooSmallForHello`; the last clause of `Handshake.Compatible` is what the
  configurations must meet.
- *The membership digest shows what is missing or stale* (membership_sync.rs:11-12, 182-183). It compares incarnations
  only: `SwimLimits.DigestMissesSuspicion` reaches a state where an exchange leaves the asker without a suspicion the
  responder holds. `MembershipSync.DigestCatchesUp` gives the exact condition.
- *The first member advertises, the last one withdraws* (engine.rs:423-424, 440, 1251-1252, 1276). Index change, count
  and advertisement are three locked actions, and verbs overlap: two devices of one user can both count two and neither
  advertise (`EngineLimits.TwoDevicesUnadvertised`), and a disconnect can withdraw a room another connection has just
  joined (`EngineLimits.JoinedRoomUnadvertised`). No digest repairs either: the origin's own set is wrong.
  `ClusterRuns.AdvertisedExactly` gives the exact condition, `ClusterRuns.HostedStaysAdvertised` the rule that avoids it.
- *`closeRoom`* (engine.rs:997-1008) does not withdraw the advertisement; `ClusterRuns.AdvertisedExactly` says exactly
  which rooms are advertised beyond the hosted ones.
- *A promise that never settles is rejected and cleaned* (identity.rs:171). Only once its event is in the bridge queue:
  before that no timer runs (`Authorizer.CallsReturn`).

## Model

| member | source | states |
|---|---|---|
| Interest.HashInputInjective | crates/mesh/src/interest.rs:73-86 | the bytes hashed for a digest determine the rooms and the users, for names below 64 KiB; only FNV itself can collide |
| Interest.EdgeEffect | crates/mesh/src/interest.rs:218-243 | an edge is applied exactly when strictly newer, changes its own target and nothing else, is counted as applied or as dropped, and is dropped when repeated |
| Interest.EdgesAccounted | crates/mesh/src/interest.rs:218-243 | after any stream of edges the version held is the newest seen, and every foreign edge is counted once, as applied or dropped |
| Interest.SnapshotEffect | crates/mesh/src/interest.rs:249-270 | a snapshot not older replaces its origin's entry and no other, counts as a repair exactly when the table changed, and repairs nothing the second time |
| Interest.SweepEffect | crates/mesh/src/interest.rs:274-276 | a swept origin is routed nothing, no other origin is touched, and any snapshot of it is accepted again |
| Interest.SnapshotOf | crates/mesh/src/interest.rs:375-382 | a snapshot lists exactly the set it was taken from |
| Interest.SortedIds | crates/mesh/src/interest.rs:350-372 | the routing result is ascending, without repeats, and holds exactly the routed ids |
| InterestTable.InterestState.constructor | crates/mesh/src/interest.rs:147-155 | a new table hosts and knows nothing |
| InterestTable.InterestState.LocalSet | crates/mesh/src/interest.rs:182-210 | refines the edge-triggered transition: version, counters and edge move only on a real change |
| InterestTable.InterestState.ApplyEdge | crates/mesh/src/interest.rs:218-243 | refines the sequence discipline, including the default entry a dropped edge leaves behind |
| InterestTable.InterestState.ApplySnapshot | crates/mesh/src/interest.rs:249-270 | refines snapshot acceptance at an equal or newer version and the repair count |
| InterestTable.InterestState.SweepOrigin | crates/mesh/src/interest.rs:274-276 | removes one origin and nothing else |
| InterestCluster.NothingAhead | crates/mesh/src/interest.rs:182-276 | over every run with loss, repeats, reordering, forwarding and sweeps, no version held or in flight exceeds its origin's |
| InterestCluster.EdgeTracks | crates/mesh/src/interest.rs:179-243 | a transition makes a mirror stale and its edge makes it exact again: without loss no digest is needed |
| InterestCluster.LinkUpRepairs | crates/mesh/src/interest.rs:284-291 | the snapshot sent at link-up makes its reader exact whatever it held, colliding entries included, while the origin has not moved on |
| InterestCluster.SweptUntilHeard | crates/mesh/src/interest.rs:274-276 | over every run a swept origin stays out of the table and of routing until there is news of it |
| InterestCluster.FloodsUntilRerouted | crates/mesh/src/interest.rs:161-165 | over every run a node told to flood addresses every other alive node until told otherwise |
| InterestCluster.VersionCountsEdges | crates/mesh/src/interest.rs:182-210 | over every run a node's version is the number of edges it has sent |
| InterestCluster.ExchangeEntry | crates/mesh/src/interest.rs:301-333 | the entry an asker ends with, whatever order the answers arrive in |
| InterestCluster.ExchangeForwards | crates/mesh/src/interest.rs:322-331 | about any third origin the asker ends with the answerer's entry exactly when that is at a higher version, else with its own |
| InterestCluster.NoEcho | crates/mesh/src/interest.rs:293-331 | no answer to a digest is about the asker itself |
| InterestCluster.ExchangeRepairs | crates/mesh/src/interest.rs:301-320 | one digest exchange with the origin makes the entry exact if and only if held and true set do not collide in the hash |
| InterestCluster.ExchangeKeepsExact | crates/mesh/src/interest.rs:322-331 | no exchange, forwarded snapshots included, spoils an exact entry |
| InterestCluster.ExchangeKeepsCollision | crates/mesh/src/interest.rs:311-331 | no exchange removes a colliding entry |
| InterestCluster.ExchangeAddsNoCollision | crates/mesh/src/interest.rs:322-331 | a colliding entry after an exchange was already at the asker or at the answering node |
| InterestCluster.ExchangeIsRun | crates/mesh/src/node.rs:213-221 | an exchange is a run of protocol steps: digest sent, answered, answers applied |
| InterestCluster.PassConverges | crates/mesh/src/interest.rs:289-333 | from every reachable state, one exchange per ordered pair in any order makes all tables equal the hosted sets, if and only if no table holds a colliding entry |
| InterestCluster.RoutesToHosts | crates/mesh/src/interest.rs:350-372 | in a converged cluster a relay goes to the alive hosts, ascending, each once |
| InterestCluster.NeverUnderDelivers | crates/mesh/tests/interest.rs:96-113 | interest routing reaches exactly the flooded peers that host the target |
| InterestCluster.ChurnThenPassRoutesToHosts | crates/mesh/tests/interest.rs:137-157 | any run of any number of nodes, then one collision-free pass: routing equals ground truth |
| InterestCluster.CollisionIsFnv | crates/mesh/src/interest.rs:70-98 | a digest blind spot is two different hashed inputs with one FNV-1a value |
| InterestCluster.DelayedSnapshotStability | crates/mesh/src/interest.rs:249-257 | a delayed snapshot keeps a converged cluster converged if and only if it is about the receiver, outdated or true |
| InterestCluster.ConvergedIsStable | crates/mesh/src/interest.rs:218-226 | late edges, link-ups, digests and their answers never spoil convergence |
| InterestCluster.QuietRunStaysConverged | crates/mesh/src/interest.rs:218-333 | with only outdated or true snapshots in flight, convergence lasts over every run without transitions or sweeps |
| InterestLimits.RoomsCollide | crates/mesh/src/interest.rs:73-98 | two concrete room names have one digest hash |
| InterestLimits.DigestNeverHeals | crates/mesh/src/interest.rs:301-320 | a concrete run after which no number of digest exchanges repairs a lost edge, contrary to the one-cycle promise |
| InterestLimits.LateForwardUndoesRepair | crates/mesh/src/interest.rs:245-257 | a concrete run in which a forwarded snapshot, accepted at an equal version, breaks a repaired entry |
| InterestCodec.DecodeEncode | crates/mesh/src/interest.rs:457-513 | decoding recovers the update and ignores what follows it |
| InterestCodec.RoundTripIff | crates/mesh/src/interest.rs:403-513 | an update survives the wire exactly when versions fit 64 bits and names and lists fit 16-bit counts |
| InterestCodec.EncodeUpdate | crates/mesh/src/interest.rs:459-478 | the appending encoder produces the specified bytes |
| InterestCodec.DigestRoundTripIff | crates/mesh/src/interest.rs:515-543 | a digest survives the wire exactly when it lists fewer than 65536 origins |
| InterestCodec.DecodeDigestBody | crates/mesh/src/interest.rs:528-543 | the decoding loop computes the specified result, failures included |
| Swim.EnqueueKeepsGossipOk | crates/mesh/src/swim.rs:250-257 | one gossip entry per id, at most 256, the new fact always in and older ones kept while there is room |
| Swim.OnlyOldestGoes | crates/mesh/src/swim.rs:250-257 | even a full list loses only its oldest entry, and only when the new fact replaces none |
| Swim.MergeAllIsBest | crates/mesh/src/swim.rs:286-321 | merging any list leaves, for every other id, a claim that was on offer and that none on offer beats |
| Swim.MergeOrderIndependent | crates/mesh/src/swim.rs:286-321 | any order and any repetition of the same facts gives the same incarnation and state per id |
| Swim.MergeAllSelf | crates/mesh/src/swim.rs:286-296 | a batch raises the node's own incarnation by one exactly when it holds a current non-Alive claim about it |
| Swim.MergeAllMembers | crates/mesh/src/swim.rs:286-317 | the table gains exactly the ids mentioned, never the node itself |
| Swim.ChangesAreCounted | crates/mesh/src/swim.rs:286-368 | every state change of a member is counted once, under what it became; refutations apart |
| Swim.ChangesAreSpread | crates/mesh/src/swim.rs:286-386 | an accepted claim, a refutation, a suspicion and a cleared suspicion are stamped with the time and gossiped with a full budget; anything else leaves the table alone |
| SwimAddresses.MergeStoresOffers | crates/mesh/src/swim.rs:286-321 | after any merge each entry is the old one or carries address, state and incarnation of an update on offer and the time of the merge |
| SwimAddresses.AddressesStayRight | crates/mesh/src/swim.rs:286-335 | in every run of a fresh cluster every table entry, gossip entry and update sent about a node carries that node's own address |
| Swim.PiggybackKeepsGossipOk | crates/mesh/src/swim.rs:263-278 | sending keeps one entry per id within the cap |
| Swim.AckUndoesWhatGossipCannot | crates/mesh/src/swim.rs:337-368 | an ACK clears a suspicion that same-incarnation gossip cannot, raises no dead member and touches no other entry |
| Swim.SuspicionEffect | crates/mesh/src/swim.rs:370-386 | only an Alive member becomes Suspect, at its incarnation |
| Swim.ExpiryEffect | crates/mesh/src/swim.rs:388-411 | exactly the suspects whose time in that state exceeds the timeout become Dead at their incarnation, every other claim stays |
| SwimTable.Rng.Shuffle | crates/mesh/src/swim.rs:474-481 | Fisher-Yates permutes in place whatever numbers it draws |
| SwimTable.DrainInto | crates/mesh/src/swim.rs:263-278 | the popping loop computes the drained frame and remainder |
| SwimTable.DrainedIsPrefix | crates/mesh/src/swim.rs:263-278 | popping one by one is sending a prefix of the list and keeping the rest in order |
| SwimTable.Membership.constructor | crates/mesh/src/swim.rs:172-184 | incarnation 1, empty table, list and schedule |
| SwimTable.Membership.Enqueue | crates/mesh/src/swim.rs:250-257 | refines supersede-append-trim and keeps the list valid |
| SwimTable.Membership.Merge | crates/mesh/src/swim.rs:286-335 | refines precedence merge, refutation and the transition counters |
| SwimTable.Membership.MergeEach | crates/mesh/src/membership_sync.rs:159-180 | the receive loop of a Sync or Gossip merges the list in order |
| SwimTable.Membership.TakePiggyback | crates/mesh/src/swim.rs:263-278 | self-alive first, then the oldest facts, each spending one of its budget |
| SwimTable.Membership.NoteDirectAck | crates/mesh/src/swim.rs:339-368 | revives a Suspect, and only a Suspect, at its incarnation |
| SwimTable.Membership.Suspect | crates/mesh/src/swim.rs:372-386 | only an Alive member becomes Suspect |
| SwimTable.Membership.ExpireSuspects | crates/mesh/src/swim.rs:390-411 | exactly the suspects past their timeout are declared dead, at their incarnation |
| SwimTable.Membership.DeclareEach | crates/mesh/src/swim.rs:399-410 | the loop merges each suspect found as Dead and lists them all |
| SwimTable.Membership.NextProbeTarget | crates/mesh/src/swim.rs:415-434 | one step of the fair schedule over the members not known dead, or None when there are none |
| SwimGossip.FrameConserves | crates/mesh/src/swim.rs:263-278 | what a frame sends plus what stays is what there was, fact by fact |
| SwimGossip.FramesConserve | crates/mesh/src/swim.rs:263-278 | the same over any number of frames |
| SwimGossip.EachEntrySentItsBudget | crates/mesh/src/swim.rs:259-278 | each entry is sent exactly its budget of times and the list drains, with the summed budgets as bound |
| SwimGossip.DrainsIff | crates/mesh/src/swim.rs:263-278 | the list drains if and only if a frame has room for two facts or there is nothing to send |
| SwimProbe.ProbeKeepsOrder | crates/mesh/src/swim.rs:415-434 | the index is always in range and the target live |
| SwimProbe.EveryMemberProbed | crates/mesh/src/swim.rs:413-434 | from any schedule, every live member is probed within 2n-1 calls while the live set stays |
| SwimHeal.MergeList | crates/mesh/src/membership_sync.rs:160-165 | merging a full state takes the better claim per id |
| SwimHeal.SyncIncarnations | crates/mesh/src/swim.rs:287-296 | in a round trip a node refutes exactly when its partner holds a current non-Alive claim about it |
| SwimHeal.SyncKeepsBounded | crates/mesh/src/membership_sync.rs:159-174 | no claim outruns its subject, and incarnations rise by at most one |
| SwimHeal.SyncUnsticksPair | crates/mesh/src/membership_sync.rs:159-174 | after a round trip the initiator sees the responder Alive, and the responder the initiator if and only if it held no stuck claim |
| SwimHeal.StuckPersists | crates/mesh/src/swim.rs:298-306 | a stuck claim stays put until its subject refutes it |
| SwimHeal.FirstPassUnsticks | crates/mesh/src/membership_sync.rs:159-174 | one full pass leaves no current non-Alive claim about anyone anywhere |
| SwimHeal.TwoPassesHeal | crates/mesh/src/membership_sync.rs:159-174 | from any tables within bounds, two full passes in any order leave every table all-Alive at current incarnations |
| SwimHeal.RoundTripAndPiggybackHeal | crates/mesh/src/swim.rs:259-264 | one round trip plus the initiator's next piggyback heals both sides of a pair |
| SwimCluster.NoClaimOutruns | crates/mesh/src/swim.rs:286-411 | in every run every claim in a table, gossip list or message has an incarnation at most its subject's |
| SwimCluster.RefutationIsOne | crates/mesh/src/swim.rs:287-296 | incarnations move only by a refutation, and then by exactly one |
| SwimCluster.RunOnward | crates/mesh/src/swim.rs:298-411 | over whole runs no incarnation falls, and an entry Dead at k stays Dead while it is at k |
| SwimCluster.DeadUntilUpdate | crates/mesh/src/swim.rs:298-306 | over whole runs an entry Dead at k stays so until its holder receives an update about it above k; no timer, probe or answer revives it |
| SwimCluster.IncarnationCountsRefutations | crates/mesh/src/swim.rs:286-296 | over whole runs a node's incarnation is one more than its refutation count |
| SwimCluster.RunKeepsGossipOk | crates/mesh/src/swim.rs:250-278 | over whole runs each gossip list keeps one entry per id and its cap |
| SwimCluster.SyncIsRun | crates/mesh/src/node.rs:286-295 | a round trip is a run of protocol steps: link-up push, answering receive, final receive |
| SwimCluster.ChurnThenTwoPassesHeal | crates/mesh/src/swim.rs:218-222 | any run of a fresh cluster, then two passes: zero stuck entries |
| MembershipSync.DigestExchange | crates/mesh/src/membership_sync.rs:181-208 | a digest exchange replaces a claim exactly when the responder's incarnation is higher or the asker knew nothing |
| MembershipSync.DigestCatchesUp | crates/mesh/src/membership_sync.rs:181-208 | the asker's incarnation ends at least the responder's; its claim is as strong if and only if the two did not differ in state at one incarnation |
| SwimLimits.DigestMissesSuspicion | crates/mesh/src/membership_sync.rs:182-208 | a concrete run of a fresh cluster ending in a whole digest exchange that leaves the asker without the responder's stronger claim |
| MembershipCodec.GetAddrPut | crates/mesh/src/probe.rs:197-233 | an address of either family is read back, whatever follows |
| MembershipCodec.RoundTripIff | crates/mesh/src/membership_sync.rs:95-150 | a message survives the wire exactly when its count fits 16 bits and every incarnation fits 32 |
| MembershipCodec.DecodeBody | crates/mesh/src/membership_sync.rs:123-149 | the decoding loop computes the specified result, failures included |
| Frame.ParseEncodeIff | crates/mesh/src/frame.rs:141-202 | a frame parses back exactly when it fits the maximum; otherwise it is reported oversize with both numbers |
| Frame.ParseMeans | crates/mesh/src/frame.rs:158-202 | whatever parses is the encoding of its result followed by the rest, and each failure has its one cause |
| Frame.KindsNumbered | crates/mesh/src/frame.rs:36-91 | kinds are numbered 1 to 11 in the protocol's order, both ways, and no other byte is known |
| Frame.ReadFrames | crates/mesh/src/link.rs:476-502 | the reading loop yields the frames before the first failure, and the failure |
| Frame.ReadStreamBytes | crates/mesh/src/link.rs:615-642 | a stream of encoded frames is read back frame by frame and then ends |
| Frame.ReadStreamOversize | crates/mesh/src/link.rs:492-497 | a frame beyond the maximum ends the stream there: everything before it is read, nothing after |
| PeerQueue.PushKeepsOk | crates/mesh/src/queue.rs:74-86 | queued bytes stay exact and within the high-water mark |
| PeerQueue.TakenFits | crates/mesh/src/queue.rs:88-111 | a batch passes the cap only as a single frame and stops only where the next would not fit |
| PeerQueue.RunKeepsOk | crates/mesh/src/queue.rs:74-111 | over every history: exact bytes, whole frames, FIFO, nothing lost or repeated, every shed frame counted |
| Coalescing.CoalescingIsInvisible | crates/mesh/src/link.rs:433-451 | for any pushes, drains and caps the reader parses exactly the frames accepted and written, in order |
| PeerLink.PeerQueue.constructor | crates/mesh/src/queue.rs:55-64 | an empty queue with the given mark |
| PeerLink.PeerQueue.Push | crates/mesh/src/queue.rs:74-86 | enqueue, or drop the newest and count it |
| PeerLink.PeerQueue.DrainCoalesced | crates/mesh/src/queue.rs:95-111 | appends exactly the frames the specification takes, whatever the buffer held |
| PeerLink.PeerQueue.Close | crates/mesh/src/queue.rs:147-150 | marks the queue closed and keeps its contents |
| PeerLink.DrainToEmpty | crates/mesh/src/link.rs:439-451 | the writes concatenate to the queued frames, each non-empty and within the cap or a single frame |
| RelaySend.Relay | crates/mesh/src/node.rs:534-572 | the send loop tallies every peer once |
| RelaySend.EachPeerOnce | crates/mesh/src/node.rs:554-571 | a peer with link, feature and room gets the frame appended once; a full queue only counts a drop and a suppressed one is untouched |
| RelaySend.ReportMeans | crates/mesh/src/node.rs:534-572 | sent, without link and suppressed count exactly the peers reached, unlinked and not negotiated; the rest are dropped |
| RelaySend.AllReachableAllSent | crates/mesh/src/node.rs:560-571 | with every peer reachable all frames are sent |
| Hello.DecodeEncodeIff | crates/mesh/src/hello.rs:50-105 | a HELLO is read back, with appended fields tolerated, exactly when the name has at most 255 bytes |
| Hello.TranscriptInjective | crates/mesh/src/handshake.rs:263-275 | two exact HELLO bodies in sequence determine both HELLOs |
| HandshakeObject.Handshake.constructor | crates/mesh/src/handshake.rs:231-241 | awaiting HELLO with nothing learned |
| HandshakeObject.Handshake.Start | crates/mesh/src/handshake.rs:246-261 | emits the HELLO of the configuration and remembers its exact bytes |
| HandshakeObject.Handshake.OnFrame | crates/mesh/src/handshake.rs:338-347 | dispatches by phase; any frame after the end is refused |
| HandshakeObject.Handshake.OnHello | crates/mesh/src/handshake.rs:349-374 | refines HELLO validation and the responder's challenge |
| HandshakeObject.Handshake.OnChallenge | crates/mesh/src/handshake.rs:376-394 | refines the initiator's answer |
| HandshakeObject.Handshake.OnAuth | crates/mesh/src/handshake.rs:396-428 | refines tag verification against the peer's role |
| HandshakeObject.Handshake.Tag | crates/mesh/src/handshake.rs:265-286 | the tag covers role, nonce and both HELLOs, initiator's first |
| HandshakeAgreement.ValidateIff | crates/mesh/src/handshake.rs:291-335 | a HELLO of legal name length is accepted exactly on equal cluster, different ids, adjacent versions and a sufficient maximum frame |
| HandshakeAgreement.RefusalReasons | crates/mesh/src/handshake.rs:291-335 | a HELLO is refused for the first rule it breaks, with the values that broke it |
| HandshakeAgreement.NoHello | crates/mesh/src/handshake.rs:291-296 | a header without the magic is no mesh peer, a short one malformed |
| HandshakeAgreement.AuthIff | crates/mesh/src/handshake.rs:396-428 | a waiting machine comes up exactly on its peer's tag |
| HandshakeAgreement.TagCovers | crates/mesh/src/handshake.rs:265-286 | each end comes up on the other's tag exactly when secret, nonce and transcript agree, and never on its own |
| HandshakeAgreement.TagBindsBothHellos | crates/mesh/src/handshake.rs:265-286 | with exact HELLO bodies: exactly when each end read the HELLO the other sent |
| HandshakeAgreement.OutcomeIsFinal | crates/mesh/src/handshake.rs:337-433 | once a machine has refused or come up it refuses whatever follows |
| HandshakeAgreement.GoodIffCompatible | crates/mesh/src/handshake.rs:291-335 | all tests pass exactly for compatible configurations, and then both ends hold the agreed parameters |
| HandshakeAgreement.HandshakeOutcome | crates/mesh/src/link.rs:387-431 | every interleaving ends within six steps: both up and agreeing if and only if the configurations are compatible, else both failed |
| HandshakeAgreement.EndsAgree | crates/mesh/src/handshake.rs:319-334 | version, features and maximum frame agree, peer ids are swapped |
| HandshakeAgreement.SuppressionSound | crates/mesh/src/link.rs:512-528 | no kind one end may send is counted unknown at the other; each of the six gated kinds needs both ends' feature bit, the rest need none |
| HandshakeAgreement.FloorTooSmallForHello | crates/mesh/src/frame.rs:18-23 | an end declaring the 64-byte minimum never gets a link up when the cluster name has more than four bytes |
| ConnectionIds.UnpackBits | crates/core/src/ids.rs:26-44 | shard, generation and key come back out of the packed bits |
| ConnectionIds.RepackBits | crates/core/src/ids.rs:26-44 | every 64-bit id is the packing of its own fields |
| ConnectionIds.BitsAreSum | crates/core/src/ids.rs:26-29 | the packed bits are the weighted sum of the fields |
| ConnectionIds.Unpack | crates/core/src/ids.rs:26-44 | the same for the numeric form the registry model uses |
| Registry.RunKeepsInv | crates/core/src/connection/registry.rs:78-123 | slabs and generations agree with the log of all inserts over every history |
| Registry.ResolveIff | crates/core/src/connection/registry.rs:102-106 | an id resolves exactly when its slot is occupied after a multiple of 2^24 reuses, to the latest tenant |
| Registry.StaleIdsNeverAlias | crates/core/src/connection/registry.rs:78-123 | below 2^24 reuses an id resolves to its own connection while live and to nothing after |
| Registry.InsertReturnsLoggedId | crates/core/src/connection/registry.rs:78-100 | the returned id resolves at once to the handle inserted |
| Registry.RemoveHandsBack | crates/core/src/connection/registry.rs:112-123 | over every history, below 2^24 reuses of the slot, removal hands back the handle inserted and the rooms last recorded, and only for a live id |
| Registry.RoundRobin | crates/core/src/connection/registry.rs:78-100 | over every history inserts go round the sixteen shards in turn |
| RegistryObject.Registry.constructor | crates/core/src/connection/registry.rs:62-76 | sixteen empty shards |
| RegistryObject.Registry.Insert | crates/core/src/connection/registry.rs:78-100 | refines round-robin insert with the generation bump |
| RegistryObject.Registry.Get | crates/core/src/connection/registry.rs:102-106 | refines lookup, including ids of no shard |
| RegistryObject.Registry.RemoveFull | crates/core/src/connection/registry.rs:115-123 | removes exactly the matching entry; the id resolves to nothing afterwards |
| RegistryObject.Registry.WithRooms | crates/core/src/connection/registry.rs:125-141 | refines the room-set update under the shard lock |
| RoomSteps.StepKeepsExclusion | crates/core/src/connection/registry.rs:125-141 | a shard lock has one holder |
| RoomSteps.StepKeepsCap | crates/core/src/rooms.rs:183-194 | no racing join slips past the room cap |
| RoomSteps.InterleavingSafe | crates/core/src/rooms.rs:176-259 | every interleaving keeps membership bidirectional up to pending work, and empty rooms only between emptying and removal |
| RoomSteps.QuiescentExact | crates/core/src/rooms.rs:1-7 | once all verbs are done both sides agree and no empty room survives |
| RoomVerbs.LeaveTakesOut | crates/core/src/rooms.rs:201-213 | whatever others do, a leave of a room held takes the connection out of its entry at once and out of the room by the end of the verb, until it joins again |
| RoomVerbs.JoinPutsIn | crates/core/src/rooms.rs:176-198 | whatever others do, a join below the cap puts it in on both sides by the end of the verb, until it leaves or is removed |
| RoomVerbs.RemoveClearsEverywhere | crates/core/src/rooms.rs:240-259 | whatever others do, removal takes the connection out of every room it held by the end of the cleanup, for good |
| RoomVerbs.OpenAdmits | crates/core/src/connection/registry.rs:78-100 | a connection inserted is there, in no room, until it is removed |
| RoomVerbs.JoinReports | crates/core/src/rooms.rs:176-198 | the four outcomes of a join, each exactly when; only one of them changes anything |
| RoomVerbs.OtherwiseNothing | crates/core/src/rooms.rs:176-213 | a join, leave or removal that does not apply changes nothing |
| RoomLocks.StepKeepsOneGuardHolder | crates/core/src/rooms.rs:249-259 | a room guard has one holder, verb or reader |
| RoomLocks.StepKeepsOneShardHolder | crates/core/src/connection/registry.rs:125-141 | a shard lock has one holder, verb or reader |
| RoomLocks.RunIsBaseRun | crates/core/src/rooms.rs:176-259 | with guards taken and released, membership runs exactly as in RoomSteps, so its results hold |
| RoomLocks.WaitsGoDown | crates/core/src/rooms.rs:9-16 | whoever is waited for is strictly earlier in the lock order; a guard holder waits for nothing |
| RoomLocks.NeverDeadlocks | crates/core/src/rooms.rs:9-16 | in every reachable state with a verb or fan-out under way, one of those under way can step |
| RoomLocks.StepsFinishVerbs | crates/core/src/rooms.rs:176-259 | each own step brings a verb or fan-out closer to its end, and no step of another sets it back |
| RoomLocks.FanVisitsMembers | crates/core/src/rooms.rs:9-16 | a fan-out visits each member copied out once, in order, under that connection's shard lock, and all of them before it finishes |
| RoomsObject.RoomRegistry.constructor | crates/core/src/rooms.rs:92-94 | no rooms |
| RoomsObject.RoomRegistry.Join | crates/core/src/rooms.rs:176-198 | all four outcomes, and the exact change on success |
| RoomsObject.RoomRegistry.Leave | crates/core/src/rooms.rs:201-213 | all outcomes, and the exact change on success |
| RoomsObject.RoomRegistry.RemoveMember | crates/core/src/rooms.rs:249-259 | removes one member and an emptied room |
| RoomsObject.RoomRegistry.CloseRoom | crates/core/src/rooms.rs:226-235 | the sweep removes every member and the room, counts them, and touches nothing else |
| RoomsObject.RoomRegistry.Sweep | crates/core/src/rooms.rs:226-235 | leaving for each copied-out member empties the room and changes only their entries |
| RoomsObject.RoomRegistry.Disconnect | crates/core/src/rooms.rs:240-244 | clears the connection from each of its rooms and no other |
| TopN.BoundedTop | crates/core/src/rooms.rs:148-169 | a heap of at most n+1 entries yields the first n of the full ranking |
| TopN.RankedOrderFree | crates/core/src/rooms.rs:155-166 | the visiting order does not matter |
| TopReports.StatLeqTotal | crates/core/src/rooms.rs:56-64 | the room ranking is a total order |
| TopReports.BusierFirst | crates/core/src/rooms.rs:56-64 | more members, then more messages, then the smaller name ranks first |
| TopReports.DeeperFirst | crates/core/src/engine.rs:681-712 | the deeper queue, then the smaller id ranks first |
| TopReports.RowMeans | crates/core/src/engine.rs:681-712 | a row holds its queue's user and depth, and the share of the mark in percent, zero without a mark |
| TopReports.TopRooms | crates/core/src/rooms.rs:148-169 | for every room map and n, sort-then-take-n |
| TopReports.DeepestMailboxes | crates/core/src/engine.rs:681-712 | the same for the deepest send queues, each row with its user, the mark and the percentage |
| Fanout.ReportBalances | crates/core/src/broadcast.rs:37-48 | attempted is queued plus backpressured plus missing |
| Fanout.FanOutKeys | crates/core/src/broadcast.rs:100-119 | no connection appears or vanishes |
| Fanout.FanOutFrame | crates/core/src/broadcast.rs:100-119 | connections not addressed are untouched |
| Fanout.FanOutOnce | crates/core/src/broadcast.rs:100-119 | each addressed live connection gets exactly one push |
| Fanout.FanOutAttempted | crates/core/src/broadcast.rs:100-119 | attempted counts the listed ids that are not excepted |
| Fanout.ReportMeans | crates/core/src/broadcast.rs:37-119 | queued counts the recipients whose mailbox took the frame, missing the gone or closed ones, backpressured the rest |
| Fanout.NewExclusions | crates/core/src/broadcast.rs:130-139 | the index holds exactly the exceptions and is sorted exactly above the thresholds |
| Fanout.Contains | crates/core/src/broadcast.rs:141-146 | scan and binary search both decide membership |
| Fanout.FanOutAdaptive | crates/core/src/broadcast.rs:100-119 | the shipped loop computes the reference fan-out |
| Fanout.FanOutLinear | crates/core/benches/support/broadcast_linear.rs:100-133 | the frozen loop computes the reference fan-out |
| Fanout.CompareFanOuts | crates/core/src/broadcast.rs:121-160 | for all inputs both loops leave the same report, mailboxes and close signals |
| Fanout.CloseIsLatched | crates/core/src/connection/mod.rs:92-143 | the first close reason stays; a Disconnect overflow latches code 1013 and closes the mailbox; no other push touches either |
| Fanout.CloseIsNudged | crates/core/src/connection/mod.rs:92-143 | a Disconnect overflow queues the close for the writer behind what is there, unless its four places are taken |
| Mailbox.EvictionsSuffice | crates/core/src/connection/backpressure.rs:119-129 | evictions stop at the first point where the frame fits |
| Mailbox.PushKeepsOk | crates/core/src/connection/backpressure.rs:99-144 | exact bytes, above the mark only with one frame queued, and no needless eviction |
| Mailbox.PushOutcomes | crates/core/src/connection/backpressure.rs:99-144 | which outcome, contents and count each policy gives, at and below the mark |
| MailboxObject.Mailbox.constructor | crates/core/src/connection/backpressure.rs:78-92 | an open, empty mailbox |
| MailboxObject.Mailbox.Evict | crates/core/src/connection/backpressure.rs:119-129 | the eviction loop pops exactly the frames that must go |
| MailboxObject.Mailbox.Push | crates/core/src/connection/backpressure.rs:99-144 | refines the three overflow policies and counts every discard |
| MailboxObject.Mailbox.Overflow | crates/core/src/connection/backpressure.rs:106-137 | the configured policy at the mark |
| MailboxObject.Mailbox.TryPop | crates/core/src/connection/backpressure.rs:150-154 | pops the oldest frame |
| MailboxObject.Mailbox.Close | crates/core/src/connection/backpressure.rs:164-167 | refuses further pushes and keeps what is queued |
| Writer.ConnectionSafe | crates/core/src/connection/mod.rs:229-281 | accepted = popped + evicted + queued, drops count frames refused by the policy or evicted (not pushes to a closed mailbox), pops are FIFO, everything popped is on the wire until a close is sent or the sink fails, one close at most and nothing after it |
| WriterControl.CommandsObeyed | crates/core/src/connection/mod.rs:229-281 | over every history control commands are taken in order and carried out on the wire until a close or a failure; a close is sent exactly if one was taken, as the last frame |
| WriterControl.StopIsFinal | crates/core/src/connection/mod.rs:236-281 | the loop ends exactly on a gone control queue, a drained closed mailbox or a refused ping or frame, and then writes nothing more |
| Authorizer.StepKeepsCount | crates/core/src/identity.rs:178-190 | the counter is permits plus callers being shed, and permits stay within the bound |
| Authorizer.SenderGoneNeverHappens | crates/core/src/identity.rs:219-224 | without shutdown the lost-sender branch is unreachable |
| Authorizer.AuthorizeSafe | crates/core/src/identity.rs:172-247 | bounded permits, exact counter, no request shared, and every call returns table-full, timed-out or what the first resolve of its own request said |
| Authorizer.ShedExactlyWhenFull | crates/core/src/identity.rs:178-190 | a call is shed exactly when permits held and calls being shed already reach the bound |
| Authorizer.ArrivedVerdictIsTaken | crates/core/src/identity.rs:206-224 | a waiting call whose verdict has arrived can only settle on it, as the first resolve said it |
| Authorizer.BridgeFills | crates/core/src/identity.rs:196-204 | a live bridge's queue grows by one per event handed over and never past its capacity |
| Authorizer.NothingLeaks | crates/core/src/identity.rs:234-238 | once all calls return, table and counter are empty |
| Authorizer.LateResolveIsNoOp | crates/core/src/identity.rs:240-247 | a late or repeated resolve changes nothing |
| Authorizer.ResolutionIsFinal | crates/core/src/identity.rs:172-247 | once a call has settled and once a request is resolved, nothing later changes either |
| Authorizer.CallsReturn | crates/core/src/identity.rs:172-238 | whatever the others do, a call returns within seven steps of its own, and until then can take one if and only if it is not handing its event to a full bridge queue |
| BridgeCodec.EncodedLenExact | crates/node/src/bridge.rs:90-133 | the precomputed size is the encoded size |
| BridgeCodec.DecodeEncode | crates/node/src/bridge.rs:135-297 | decoding a flush buffer returns its batch |
| BridgeCodec.EncodeInto | crates/node/src/bridge.rs:136-193 | the encoding loop produces the specified bytes and length |
| BridgeCodec.DecodeBuffer | crates/node/src/bridge.rs:241-297 | the cursor loop computes the specified result, with None for a corrupt buffer |
| Bridge.Flush | crates/node/src/bridge.rs:371-377 | appends one buffer, the encoding of a non-empty batch, to the earlier flushes, and nothing for an empty one |
| Bridge.DrainLoop | crates/node/src/bridge.rs:314-369 | for every arrival and timer schedule, consecutive non-empty batches of at most 256 events, and the consumer decodes exactly the events in order |
| Relay.UnderstandRelay | crates/core/src/cluster.rs:153-190 | the receiver recovers target, exceptions, payload and binary flag |
| Relay.GetExceptsPut | crates/core/src/cluster.rs:325-348 | an exception list of fewer than 65536 entries is read back |
| Relay.NodeExcepts | crates/core/src/engine.rs:1181-1186 | local exceptions are tagged with the sender's node, all and only those |
| Relay.ExceptsFor | crates/core/src/cluster.rs:352-358 | exactly the exceptions naming this node apply |
| Engine.JoinKeeps | crates/core/src/engine.rs:416-433 | a join run without interruption keeps indexes and advertisement consistent |
| Engine.LeaveKeeps | crates/core/src/engine.rs:436-449 | a leave run without interruption keeps indexes and advertisement consistent |
| Engine.AdmitKeeps | crates/core/src/engine.rs:1243-1258 | an admission run without interruption keeps indexes and advertisement consistent |
| Engine.DisconnectAdvertised | crates/core/src/engine.rs:1272-1294 | a disconnect run without interruption withdraws exactly what it emptied |
| Engine.CloseRoomKeeps | crates/core/src/engine.rs:997-1008 | closing a live room leaves it, and nothing more, advertised without members |
| Engine.VerbKeeps | crates/core/src/engine.rs:414-449 | every verb run without interruption keeps non-empty rooms advertised and users exact; the rooms advertised without members grow only by closing a live room and shrink only by joining it |
| EngineSteps.AdmittedUntilRemoved | crates/core/src/engine.rs:1236-1262 | over every run of interleaved verbs an admitted connection keeps its handle and its user until its own removal |
| EngineSteps.StepKeepsIndexes | crates/core/src/engine.rs:1240-1294 | every step of every interleaving keeps both indexes equal to the entries up to the verbs in flight |
| EngineSteps.StepTracks | crates/core/src/engine.rs:416-449 | every step keeps the account exact: a name lost since its last arrival is unadvertised, one that overstayed since its last departure is advertised, and otherwise only a verb in flight can make it wrong |
| EngineSteps.ApartLosesNothing | crates/core/src/engine.rs:424-447 | with windows on a name apart no count and no withdrawal loses it |
| EngineSteps.StepKeepsApart | crates/core/src/engine.rs:416-449 | windows stay apart if each arrival starts with none open and each departure with no arrival in flight |
| EngineLimits.TwoDevicesUnadvertised | crates/core/src/engine.rs:1249-1258 | a concrete interleaving of two admissions of one user that ends with the user present, nothing in flight and nothing advertised |
| EngineLimits.JoinedRoomUnadvertised | crates/core/src/engine.rs:1272-1284 | a concrete interleaving of a disconnect and a join that ends with the room occupied, nothing in flight and the room withdrawn |
| EngineVerbs.VerbIsRun | crates/core/src/engine.rs:414-449 | the steps of a verb run back to back come to the one step Engine gives it, with the same edges, and keep windows apart on every name |
| ClusterRuns.AdvertisedExactly | crates/core/src/engine.rs:416-449 | over every run of interleaved verbs and mesh, a name with members and no arrival in flight is advertised if and only if no step since its last arrival lost it; one without members and no departure in flight if and only if a step since its last departure overstayed |
| ClusterRuns.HostedStaysAdvertised | crates/mesh/src/node.rs:487-502 | over every run in which no arrival at a name overlaps another arrival or a departure, a node with members of it advertises it or is about to |
| ClusterRuns.IndexesMirror | crates/core/src/rooms.rs:1-7 | over every run both indexes mirror the entries up to the verbs in flight, and exactly once there are none |
| ClusterRuns.WholeRunIsRun | crates/core/src/engine.rs:414-449 | verbs never interrupted are a run in which no windows overlap on any name |
| ClusterRuns.WholeVerbsStaySound | crates/mesh/src/node.rs:487-502 | with verbs never interrupted, indexes mirror entries, every hosted room stays advertised, and exactly the present users do |
| RelayHop.FanOutIsPushTo | crates/core/src/broadcast.rs:100-119 | fan-out in any order is one push per addressed connection |
| RelayHop.ReadingKeepsMembers | crates/mesh/src/node.rs:182-236 | no frame read off a link moves a connection in or out of a room |
| RelayHop.NeverSentOn | crates/mesh/src/node.rs:182-236 | whatever a node reads, nothing it queues in return is a relay |
| RelayHop.OneHop | crates/mesh/src/link.rs:433-510 | for any frames before and after and any batching, the peer handles a queued frame exactly once in its place, and an oversize one ends the link |
| RelayHop.WriterCatchesUp | crates/mesh/src/link.rs:433-451 | left to itself the writer empties any queue, in at most as many batches as frames |
| RelayHop.QueueAfter | crates/mesh/src/node.rs:554-571 | after the relay loop a peer's queue holds the frame once more exactly if it is listed and reachable |
| RelayHop.RelayRead | crates/core/src/cluster.rs:221-291 | a relay that was read is decoded as sent and pushed once to each local recipient its exceptions do not name |
| RelayHop.InterestRead | crates/mesh/src/node.rs:182-236 | an interest update that was read is applied to the table as it was sent, and to nothing else |
| RelayHop.IdleStream | crates/mesh/src/node.rs:182-236 | a stream of unknown, not negotiated or upkeep frames changes no mailbox and no table |
| RelayHop.SocketRead | crates/core/src/cluster.rs:292-306 | a socket message that was read is pushed once to the connection it names, if that is still there |
| ClusterDelivery.RecipientsAreMeant | crates/core/src/broadcast.rs:60-93 | the indexes fan-out walks list exactly the live connections whose own entry holds the room, whose owner is the user, or all |
| ClusterDelivery.PeersCover | crates/core/src/cluster.rs:153-190 | the peers relayed to are exactly those alive that advertise the target, or every link for a broadcast to all, none twice, never the sender |
| ClusterDelivery.RelayedAt | crates/mesh/src/node.rs:534-572 | what one frame to a list of peers leaves at each linked node, between the link's other frames |
| ClusterDelivery.ExactlyOnce | crates/core/src/engine.rs:463-578 | through queues, writers, readers and fan-out: one push to each addressed connection of the sender and of every peer in reach, none to any other; none at a peer not alive, not advertising, unlinked, without the feature, full or with too small a maximum |
| ClusterDelivery.SocketOnce | crates/core/src/cluster.rs:192-201 | a message to one connection is pushed once at its owner if the link takes it, and nowhere else |
| ClusterDelivery.HealthyDelivers | crates/core/src/cluster.rs:8-15 | with idle links of sufficient room to every node and every host advertising, each connection of the cluster gets the payload once if addressed, else nothing |
| ClusterDelivery.ChurnThenPassDelivers | crates/core/src/cluster.rs:8-15 | any run of interleaved verbs, one collision-free digest pass, then exactly-once delivery through whatever links there are, reaching a host if and only if the run did not lose the name there |
| ClusterDelivery.OrderlyChurnDelivers | crates/core/src/cluster.rs:8-15 | any run without overlapping arrivals at the target, one collision-free digest pass, healthy links: each connection gets the payload once if addressed, else nothing |

## Left out

- Sockets, tokio tasks, `select!`, timers and clocks: replaced by steps, schedules and instants passed as parameters.
- HMAC-SHA256, nonce generation and constant-time comparison: the MAC is a symbolic tag and nonces are parameters; no claim is made about an active attacker, and a tag where plain bytes are expected is refused rather than read as bytes.
- Handshake and authorize timeouts that cut a run short, and task cancellation: only the authorize reply timeout is modelled.
- Restart of a process under the same node id: sequence numbers and incarnations would start over; every result assumes one lifetime per id.
- Overflow of 32- and 64-bit counters, versions and incarnations: they are unbounded in the protocol models; the codecs state their ranges.
- What happens inside one registry call: joining, leaving or cleaning out one room, binding and unbinding are one step each in `EngineSteps`, on values rather than objects; `RoomSteps` and `RoomLocks` have the finer steps of the room calls.
- Engine.JoinKeeps: speaks of a join run without interruption; interleaved verbs are in `ClusterRuns.AdvertisedExactly`.
- Engine.LeaveKeeps: speaks of a leave run without interruption; interleaved verbs are in `ClusterRuns.AdvertisedExactly`.
- Engine.AdmitKeeps: speaks of an admission run without interruption; interleaved verbs are in `ClusterRuns.AdvertisedExactly`.
- Engine.DisconnectAdvertised: speaks of a disconnect run without interruption; interleaved verbs are in `ClusterRuns.AdvertisedExactly`.
- Engine.VerbKeeps: speaks of verbs run without interruption; interleaved verbs are in `ClusterRuns.AdvertisedExactly`.
- Aliasing and in-place update in `RoomSteps`, `Writer` and `Authorizer`: their steps are on values, one per critical section or atomic operation.
- Hash-map iteration order: lists made from maps are arbitrary in the membership, digest-answer and fan-out results, ascending in interest snapshots.
- Per-room message counters and presence: they would add only easy members.
- Delivery of the answers a reader sends (pongs, snapshots for a digest, membership replies) during a broadcast: `RelayHop` says which frames they can be, not when they arrive. The partition lever (`set_partition`) is taken to be off.
- What a peer's own verbs and its other links do while one link is read: `ClusterDelivery` composes one broadcast with everything the sender's links carry, and `ClusterRuns.Run` with everything engines and mesh do before it.
- RwLock read sharing in `RoomLocks`: guards and shards have one holder, which blocks more than the code does.
- The `f64` rounding of the backpressure percentage: it is a real number.
- The UDP probe loop, dialling and backoff, the read loop's keepalive, per-IP admission, rate sampling, metrics text, configuration, the napi binding, the WebSocket codec and the TypeScript SDK.
- BridgeCodec.DecodeEncode: assumes payloads below 4 GiB, as the 32-bit length prefix does.
- Coalescing.CoalescingIsInvisible: speaks of encoded frames within the negotiated maximum; a longer one closes the link (`Frame.ParseEncodeIff`).
- HandshakeAgreement.TagBindsBothHellos: speaks of HELLO bodies with nothing appended; with appended fields the tag covers the two bodies joined end to end (`HandshakeAgreement.TagCovers`).
- Registry.StaleIdsNeverAlias: holds below 2^24 reuses of a slot; `Registry.ResolveIff` says what happens beyond.
- ClusterDelivery.ExactlyOnce: assumes a name and an exception list below 64 Ki entries and a frame below 4 GiB, as the length prefixes do, and that the other frames on a link are within its negotiated maximum.
- PeerLink.DrainToEmpty: one run of the writer's inner loop over the frames queued when it starts; pushes between two drains are in `PeerQueue.RunKeepsOk` and `RelayHop.OneHop`.
