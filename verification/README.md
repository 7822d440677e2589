# p2p-net: a Dafny model of the node's own state machines

p2p-net is a libp2p node. This project models the pieces of state the node owns
itself, outside libp2p, and proves what they promise over every input, every run
and every interleaving. Each module follows one component.

| module | component |
|---|---|
| `Fragmentation`, `Reassembly`, `Reassembler`, `ReassemblyRuns` | splitting application messages into 16 KiB fragments and rebuilding them |
| `ReplayCache`, `Heartbeat`, `AppMessages`, `AppSecurity` | the heartbeat frame, freshness windows and replay protection |
| `Journal` | browser storage: writers, revision counter and asynchronous flushes |
| `AutoConnect`, `AutoConnectGate`, `ProviderLookups`, `BoundedSets` | DHT provider tracking, look-ups, the auto-connect gate and its retry budget |
| `PeerBook` | the peer records and their derived indexes |
| `ExternalAddresses` | the stream of address actions given to the swarm |
| `RateWindows`, `Broker`, `Refresher` | TURN broker: rate limit, credential lifetimes, single-flight refresh |
| `Identity`, `IdentityFile` | many starters racing to create one identity key |
| `ConnectionPlans` | dial plans and the walk through their fallbacks |
| `DirectUpgrade` | moving a peer from relayed connections to a direct one |
| `Dns`, `DnsChains` | recursive `/dnsaddr` resolution, and the chains of records it follows |
| `RelayMeter` | relay circuit accounting |
| `HashInputs`, `Namespaces` | hash-input encodings and namespace normalization |
| `Texts` | trimming of text |
| `Base` | machine integers, big-endian and hexadecimal encodings, sequence facts |

## How the model reads

Objects the code updates in place are classes: their methods are proved against
specification functions, and the run-level theorems are about those functions.
`Reassembler.AppFragmentReassembler.Push`, for example, equals
`Reassembly.PushSpec`, which `ReassemblyRuns` then iterates over whole runs.
Concurrent protocols (`Journal`, `Identity`, `Refresher`) are step relations in
which any enabled step of any participant may come next. Time is a parameter.
Hashes, JSON, PeerId text, address text and DNS answers are function values in a
`Libs` record; the few laws a proof needs (parsing what was printed, for instance)
are collected in a `Lawful` predicate. DNS answers obey no law at all.

## Main results

- Reassembly: fragments of a message pushed in any order, repeated and mixed with
  other messages, give back exactly that message at the push that completes it and
  nothing before; conversely a delivered message consists of chunks pushed within the
  30 s before. Every refusal has its exact condition. The byte counters always equal the
  bytes held and no saturating operation saturates.
- Acceptance: exactly which bytes are accepted as a heartbeat, and which application
  envelopes, given all earlier acceptances.
- Replay: under a validated configuration nothing is accepted twice until at least
  `capacity` other envelopes were accepted in between, saturation included. Limits that
  fail the check in seconds are sound only if their time to live saturates; all others
  accept some copy twice.
- Journal: a clean report, whose two loads may have anything between them, and an Ok
  flush make durable every change announced before, in every interleaving; both promises
  hold of the runs with at most n changes if and only if n < 2^64. Conversely an Ok flush
  leaves the storage clean unless a change was announced since.
- Auto-connect: at most 8 attempts per window, 5 s apart, at most 16 in any 300 s; and
  the gate's answer is told by the history, yes and no.
- Peer book, external addresses, relay meter: the fast bookkeeping equals a full
  recomputation after every operation.
- Broker: forgetting old windows is invisible, at most twice the limit is admitted in
  any minute, and a request is admitted exactly when its window has room. Fetches start
  exactly when the schedule says.
- `/dnsaddr`: whatever the resolvers answer, resolution finds exactly the addresses at the
  ends of chains of records, and fails exactly when something on a chain or the budget does.
- Identity: one key wins and every successful starter returns it, with an atomic
  create; with the two-step default create two starters can end with different keys. On
  files they can exactly when a file already written out is taken away again, because
  syncing it failed.
- Dial plans: over any run of plans, failures and connections a peer's queue is the untried
  rest of the last plan taken up for it. A plan that fails at once does not touch the table,
  so an older plan's fallbacks stay queued.
- Codecs: the heartbeat frame and the hash inputs are inverted or shown injective,
  with the exact condition where they are not.

## Model

| member | source | states |
|---|---|---|
| `Fragmentation.ChunkLength` | crates/api/fragmentation.rs:56-60 | every chunk but the last is 16 KiB and the last has the remainder |
| `Fragmentation.FragmentsValidate` | crates/api/fragmentation.rs:99-159 | every fragment of a splittable message passes the receiver's checks |
| `Fragmentation.WiresDecode` | crates/api/fragmentation.rs:43-97 | fragmenting succeeds exactly when every wire form fits, and then each wire form decodes to its fragment |
| `Fragmentation.AcceptedIffFragment` | crates/api/fragmentation.rs:99-159 | a fragment passes the receiver's checks exactly when it is a fragment of some message that passes its own, up to the hash it announces, which must be hash text |
| `Fragmentation.WholeOrNot` | crates/api/fragmentation.rs:43-47 | a message that is not split goes out whole exactly when it is valid and its wire form fits, and an invalid one fails with its own error |
| `AppMessages.TopicAcceptedExactly` | crates/api/mod.rs:447-472 | the accepted topics are 1 to 128 letters, digits and `-_./` with any white space around them |
| `AppMessages.EnvelopePasses` | crates/api/mod.rs:418-445 | exactly which envelopes pass, and that the error is that of the first check to fail |
| `Reassembly.AssembleChunks` | crates/api/fragmentation.rs:242-245 | joining the chunks of a payload gives the payload back |
| `Reassembly.PushKeepsInv` | crates/api/fragmentation.rs:183-266 | after any push of a validated fragment every open entry has a chunk present and one missing, its byte count is what it holds, and both ceilings are respected |
| `Reassembly.DropKeepsInv` | crates/api/fragmentation.rs:268-286 | dropping any entries keeps the same |
| `Reassembly.RefusedExactly` | crates/api/fragmentation.rs:188-221 | by the entries less than 30 s old: which pushes are refused for author, ceiling (2 MiB each, 8 MiB in all) or metadata, and that a refused push changes nothing |
| `Reassembly.AddedExactly` | crates/api/fragmentation.rs:222-265 | any other push adds its chunk and keeps every other entry; the entry closes exactly when no chunk is missing, and then gives the message if the hash is right and a hash error if not |
| `Reassembler.BooksFill` | crates/api/fragmentation.rs:225-228 | adding a chunk never saturates the global or per-author counter and keeps both equal to the bytes held |
| `Reassembler.BooksRelease` | crates/api/fragmentation.rs:277-284 | releasing an entry never underflows a counter and keeps both equal to the bytes held |
| `Reassembler.AssembleAll` | crates/api/fragmentation.rs:242-245 | the joining loop computes the concatenation of the chunks |
| `Reassembler.AppFragmentReassembler.Expire` | crates/api/fragmentation.rs:268-286 | an entry is there afterwards exactly when it was there and is less than 30,000,000,000 ns old, unchanged; counters follow, and no author keeps a zero counter |
| `Reassembler.AppFragmentReassembler.Push` | crates/api/fragmentation.rs:183-266 | the in-place push has the outcome and the new entries of the specification, for every branch and both clock readings, and keeps counters and entries in agreement |
| `Reassembler.AppFragmentReassembler.AddChunk` | crates/api/fragmentation.rs:225-265 | a chunk is stored, or completes its entry and delivers it |
| `ReassemblyRuns.Progresses` | crates/api/fragmentation.rs:183-266 | while a message is incomplete its entry holds exactly the chunks pushed so far, whatever else is pushed |
| `ReassemblyRuns.RoundTrip` | crates/api/fragmentation.rs:183-266 | in any order, with duplicates and other messages in between, the push that first completes the message returns it and no earlier push returns anything |
| `ReassemblyRuns.AloneRoundTrip` | crates/api/fragmentation.rs:183-266 | on an idle reassembler the fragments of any valid message, in any order and number within 30 s, always fit the ceilings and give the message back |
| `ReassemblyRuns.EverythingCarried` | crates/api/fragmentation.rs:210-229 | in every run each held chunk was carried by a push of that author with the same metadata, and under a clock that does not run back no earlier than its entry was opened |
| `ReassemblyRuns.DeliveredWasPushed` | crates/api/fragmentation.rs:234-265 | a delivered message is valid, names its author, and each of its chunks was pushed by that author with identical metadata |
| `ReassemblyRuns.DeliveredInTime` | crates/api/fragmentation.rs:268-286 | under a clock that does not run back every chunk of a delivered message was pushed less than 30 s before the push that delivers it |
| `ReplayCache.Cache.Prune` | crates/protocol/pulse.rs:424-438 | pruning removes from the front what is older than the time to live and nothing else that matters |
| `ReplayCache.Cache.CheckAndInsert` | crates/protocol/pulse.rs:399-422 | a key is new exactly when it is not among the last `capacity` acceptances still within the time to live, and acceptance is recorded |
| `ReplayCache.Cache.Evict` | crates/protocol/pulse.rs:414-420 | eviction restores the capacity bound by dropping the oldest |
| `ReplayCache.FreshTwice` | crates/protocol/pulse.rs:344-353 | a stamp fresh at two times is fresh within the time to live of the first, saturation included |
| `ReplayCache.SoundExtend` | crates/protocol/pulse.rs:399-438 | one more accepted key keeps every pair of equal keys at least `capacity` acceptances apart |
| `ReplayCache.UncoveredAcceptsTwice` | crates/protocol/pulse.rs:399-438 | whenever a window does not cover there are two times at which one stamp is fresh and not remembered, with nothing accepted in between |
| `Heartbeat.EncodeHeartbeatWire` | crates/protocol/pulse.rs:70-95 | the appending encoder produces the specified frame or error |
| `Heartbeat.ReadUint` | crates/protocol/pulse.rs:141-159 | a read succeeds exactly when the bytes are there and returns the number whose big-endian form they are |
| `Heartbeat.DecodeHeartbeatWire` | crates/protocol/pulse.rs:97-139 | the cursor-moving decoder computes the specified result |
| `Heartbeat.FrameLayout` | crates/protocol/pulse.rs:70-95 | where each field of a frame lies |
| `Heartbeat.DecodeEncoded` | crates/protocol/pulse.rs:70-139 | decoding an encoded envelope gives it back with the nonce in lower case |
| `Heartbeat.EncodeDecoded` | crates/protocol/pulse.rs:70-139 | re-encoding what was decoded gives the same bytes |
| `Heartbeat.AcceptedIffEncoding` | crates/protocol/pulse.rs:97-139 | a byte string is accepted exactly when it is the encoding of some envelope |
| `Heartbeat.ValidatedConfigCovers` | crates/protocol/pulse.rs:240-310 | a validated configuration has time to live at least age plus skew, in saturating nanoseconds, for both caches |
| `Heartbeat.CoversInSeconds` | crates/protocol/pulse.rs:271-279 | the nanosecond window covers exactly when the check in seconds passes or the time to live saturates |
| `Heartbeat.DecidedExactly` | crates/protocol/pulse.rs:319-480 | the bytes decide: accepted are exactly the frames within the size limit that carry the source's own identity, entropy not all zero and its hash as nonce, a stamp within age and skew in exact arithmetic, and a key none of the last acceptances within the time to live has; likewise what counts as duplicate or oversize, and what is remembered |
| `Heartbeat.ValidateHeartbeatWire` | crates/protocol/pulse.rs:441-480 | the decision is Accept exactly for such bytes, given every acceptance so far, and the cache's new history is the specified one |
| `Heartbeat.HeartbeatNeverReplayed` | crates/protocol/pulse.rs:441-489 | in every run with a nondecreasing clock, two acceptances of one key have at least `capacity` acceptances between them |
| `Heartbeat.ReplayFreeExact` | crates/protocol/pulse.rs:441-489 | whatever the limits, given a peer whose heartbeats fit the wire limit, all runs are free of replays if and only if the window covers |
| `Heartbeat.SameFrameNotAcceptedAgain` | crates/protocol/pulse.rs:441-489 | the same bytes from the same source are not accepted again before that |
| `AppSecurity.DecodeAppNonce` | crates/protocol/app_security.rs:115-122 | testing the text length before decoding changes nothing: the answer is the heartbeat nonce decoder's |
| `AppSecurity.AppDecidedExactly` | crates/protocol/app_security.rs:80-122 | accepted are exactly the envelopes whose nonce is the hexadecimal text, in either case, of 32 bytes not all zero, stamped within age and skew, with a key no acceptance within the time to live has; likewise duplicates and what is remembered |
| `AppSecurity.ValidateAppMessageSecurity` | crates/protocol/app_security.rs:80-113 | the decision and the cache's new history are the specified ones |
| `AppSecurity.AppMessageNeverReplayed` | crates/protocol/app_security.rs:47-113 | in every run two acceptances of one envelope key have at least `capacity` acceptances between them |
| `AppSecurity.AppReplayFreeExact` | crates/protocol/app_security.rs:47-113 | whatever the limits, all runs of application envelopes are free of replays if and only if the window covers |
| `Journal.StepKeeps` | crates/platform/wasm.rs:69-144 | every step of every writer, flush and database transaction keeps the protocol invariant, in which a flush that returned Ok has raised the flushed revision to at least the one it was called at |
| `Journal.CleanReportIsDurable` | crates/platform/wasm.rs:65-67 | whatever happens between the two loads of a clean report, every change announced before the first load is durable; the journal equals the map exactly when what was changed past the persisted point has no net effect on it, and all of that came after the first load if no writer was midway then |
| `Journal.CleanIsPersisted` | crates/platform/wasm.rs:65-97 | the case of both loads in one state: clean and no writer between map and revision means the persisted journal equals the map |
| `Journal.WriteBetweenLoads` | crates/platform/wasm.rs:65-67 | a whole write between the two loads leaves the report clean and the write not durable; journal and map then agree only if the write changed nothing |
| `Journal.OkFlushIsDurable` | crates/platform/wasm.rs:69-97 | a flush that returned Ok has made durable every change announced before it was called |
| `Journal.OkFlushIsClean` | crates/platform/wasm.rs:69-97 | after an Ok flush the flushed revision is at least the revision it was called at, and equals the current one unless a change was announced since |
| `Journal.FlushGetsThrough` | crates/platform/wasm.rs:69-97 | from any dirty state with nothing else under way a flush can run to its end, and then returns Ok with map and journal equal and nothing dirty |
| `Journal.ReplayByKey` | crates/platform/wasm.rs:113-144 | a key has the value last put under it, none if last removed, and what was loaded if never touched |
| `Journal.MapsFollowWrites` | crates/platform/wasm.rs:113-144 | in every run the map says this of all changes so far and the journal of a prefix of them |
| `Journal.WrappedLooksClean` | crates/platform/wasm.rs:113-144 | after a multiple of 2^64 unflushed changes the storage reports clean although nothing was persisted |
| `Journal.WrappedFlushReturnsOk` | crates/platform/wasm.rs:69-73 | a flush called in that state returns Ok at once with nothing durable |
| `Journal.PromisesHoldBelowWrap` | crates/platform/wasm.rs:65-97 | each of the two promises holds of all runs with at most n changes if and only if n is below 2^64 |
| `BoundedSets.PruneOldest` | crates/connectivity/dht/state.rs:451-458 | pruning keeps exactly the newest members and the queue stays a duplicate-free listing |
| `BoundedSets.PruneOldestKeys` | crates/connectivity/dht/state.rs:411-436 | the same for a map and its queue |
| `BoundedSets.ListingRemove` | crates/connectivity/dht/state.rs:439-449 | removing a peer from set and queue keeps them in step |
| `AutoConnect.MarkAttemptedKeeps` | crates/connectivity/dht/state.rs:99-136 | marking an attempt keeps attempted and waiting disjoint and every queue a listing within 2048 |
| `AutoConnect.MarkWaitingKeeps` | crates/connectivity/dht/state.rs:138-152 | marking as waiting keeps the same |
| `AutoConnect.GateKeeps` | crates/connectivity/dht/state.rs:184-213 | asking the gate keeps the same |
| `AutoConnect.RecordProviderKeeps` | crates/connectivity/dht/state.rs:85-97 | recording a provider, with its eviction, keeps the same |
| `AutoConnect.NewProvider` | crates/connectivity/dht/state.rs:85-97 | the pruning loop removes one provider at most: the queue loses its head and that peer its tracking |
| `AutoConnect.OldestProviderForgotten` | crates/connectivity/dht/state.rs:411-436 | beyond the cap exactly the provider known longest goes, and it is in none of the provider map, the two auto-connect sets and the four look-up tables; below the cap nobody goes |
| `AutoConnect.BudgetHolds` | crates/connectivity/dht/state.rs:99-213 | in every run the retry record describes the attempts made: this window's are counted, spaced and tagged with their window |
| `AutoConnect.RetryBudget` | crates/node/runtime_maintenance.rs:83-109 | in every run a peer gets at most 16 attempts in any 300 s span, any nine attempts reach into a later window, and attempts inside one window are 5 s apart |
| `AutoConnect.RetryBudgetWhenFew` | crates/connectivity/dht/state.rs:99-136 | the budget holds for every peer of a run that tries at most 2048 peers, since no retry record is evicted then |
| `AutoConnectGate.NeverDialled` | crates/connectivity/dht/state.rs:196-203 | in every run a peer not dialled so far is let through, unless it waits for an address and this is not one |
| `AutoConnectGate.WindowKnown` | crates/connectivity/dht/state.rs:99-121 | the retry window begins where the history says: with the first dial, then with the first try let through 300 s later |
| `AutoConnectGate.GateExactly` | crates/connectivity/dht/state.rs:184-213 | after any run the gate says yes exactly when the peer is neither attempted nor, without a new address, waiting, and it was never dialled, or its window is 300 s old, or fewer than 8 of its dials lie in the window and none in the last 5 s |
| `AutoConnectGate.PhaseFollows` | crates/connectivity/dht/state.rs:99-181 | in every run a peer is attempted only while its last try let through was a dial not failed since, and waiting only while that try awaits an address; exactly so where the caps push nothing of it out |
| `AutoConnectGate.GateFromHistory` | crates/connectivity/dht/state.rs:184-213 | so the gate's answer follows from the history alone |
| `AutoConnectGate.GateWhenFew` | crates/connectivity/dht/state.rs:184-213 | and does so in every run with at most 2048 peers tried and 2048 found |
| `ProviderLookups.OneInFlight` | crates/connectivity/dht/state.rs:380-392 | in every run of look-ups, completions and evictions no key has two tracked look-ups in flight |
| `ProviderLookups.StartsApart` | crates/connectivity/dht/state.rs:267-282 | of two look-ups for one key, with its provider not evicted in between, the first was completed before the second started and at least the cooldown lies between |
| `ProviderLookups.StartsExactly` | crates/connectivity/dht/state.rs:380-409 | a look-up wanted starts exactly when every earlier one of its key, started since the provider was last evicted, is completed and a cooldown ago |
| `ProviderLookups.EvictionReopens` | crates/connectivity/dht/state.rs:427-433 | evicting the provider forgets both, so a second look-up can start at once beside the first |
| `AutoConnect.DhtProviderState.MarkAutoConnectAttempted` | crates/connectivity/dht/state.rs:99-136 | the in-place operation is the specified one and keeps the invariant |
| `AutoConnect.DhtProviderState.MarkAutoConnectWaitingForAddrs` | crates/connectivity/dht/state.rs:138-152 | the in-place operation is the specified one and keeps the invariant |
| `AutoConnect.DhtProviderState.MarkAutoConnectFailed` | crates/connectivity/dht/state.rs:154-165 | a failed peer leaves both sets, so it may be tried again |
| `AutoConnect.DhtProviderState.ShouldAutoConnect` | crates/connectivity/dht/state.rs:184-213 | the gate answers as specified, which `AutoConnectGate` tells from the history, and restarts a window that is over |
| `AutoConnect.DhtProviderState.RecordProviderPeer` | crates/connectivity/dht/state.rs:85-97 | a new provider may push out the oldest one together with its auto-connect and look-up state, which the look-up histories record |
| `AutoConnect.DhtProviderState.StartProviderAddrLookupIfDue` | crates/connectivity/dht/state.rs:380-409 | starts exactly when the history of look-ups says it is due, and the tables stay what that history makes them |
| `AutoConnect.DhtProviderState.CompleteProviderAddrLookup` | crates/connectivity/dht/state.rs:375-377 | answers whose look-up it was and records the completion |
| `AutoConnect.DhtProviderState.StartPeerAddressRecordLookup` | crates/connectivity/dht/address_records.rs:129-142 | the same for address records by peer and namespace, with the gate and the stamp reading the clock separately |
| `AutoConnect.DhtProviderState.CompleteGetAddressRecord` | crates/connectivity/dht/state.rs:300-302 | answers whose look-up it was and records the completion |
| `PeerBook.PruneAddrs` | crates/connectivity/peer_book.rs:313-320 | addresses above the limit go, least first |
| `PeerBook.WithAddr` | crates/connectivity/peer_book.rs:125-131 | the source is there, and so is the address unless 64 greater ones are |
| `PeerBook.AsConnected` | crates/connectivity/peer_book.rs:146-155 | the record is connected, with that source, and holds the address unless 64 greater ones are there |
| `PeerBook.RecordsAfter` | crates/connectivity/peer_book.rs:249-272 | the touched record is the changed one, stamped; a connected one stays, every other record is untouched, and nobody goes while there is room |
| `PeerBook.OneEvictionIsEnough` | crates/connectivity/peer_book.rs:298-310 | after one mutation of a book within bounds, at most one record has to go |
| `PeerBook.OnlyTheOldestGoes` | crates/connectivity/peer_book.rs:298-310 | no connected record is evicted, nothing else changes, and whatever goes was seen before every disconnected record that stays, ties going to the lesser peer |
| `PeerBook.DisconnectInFullBook` | crates/connectivity/peer_book.rs:249-310 | in a book held above its limit by connections, a disconnect removes that very peer |
| `PeerBook.PeerBook.ReconnectCandidates` | crates/connectivity/peer_book.rs:214-216 | the index is exactly the disconnected peers with a namespace |
| `PeerBook.PeerBook.ConnectedCount` | crates/connectivity/peer_book.rs:240-242 | the counter is the number of connected records |
| `PeerBook.PeerBook.DiscoveredCount` | crates/connectivity/peer_book.rs:245-247 | the difference is the number of disconnected records and never saturates |
| `PeerBook.PeerBook.MutatePeer` | crates/connectivity/peer_book.rs:249-272 | after any mutation of any peer the three indexes equal a full scan, the size is bounded, and only the touched record and the evicted oldest changed |
| `PeerBook.PeerBook.SyncIndexes` | crates/connectivity/peer_book.rs:274-296 | counter, reconnect index and eviction order follow one record |
| `PeerBook.PeerBook.EnforceRecordBound` | crates/connectivity/peer_book.rs:298-310 | the eviction loop removes the disconnected record with the least (last seen, peer) when the book is too large |
| `PeerBook.PeerBook.RecordPeer` | crates/connectivity/peer_book.rs:119-123 | adds a source |
| `PeerBook.PeerBook.RecordAddr` | crates/connectivity/peer_book.rs:125-131 | adds the source and the address, which is kept unless 64 greater ones are, and stamps the record |
| `PeerBook.PeerBook.RecordNamespace` | crates/connectivity/peer_book.rs:133-144 | adds a source and a namespace |
| `PeerBook.PeerBook.RecordConnected` | crates/connectivity/peer_book.rs:146-155 | the peer is in the book afterwards, connected, stamped and with that source, its address kept within the bound |
| `PeerBook.PeerBook.RecordDisconnectedIfKnown` | crates/connectivity/peer_book.rs:189-196 | a known peer that stays is the same record disconnected and stamped; an unknown one stays unknown |
| `ExternalAddresses.FaithfulPush` | crates/stack/external_addresses.rs:64-79 | an action that may follow keeps the stream free of repeated confirms, stray expiries and more than 32 confirmed addresses |
| `ExternalAddresses.RememberBounded` | crates/stack/external_addresses.rs:82-101 | what is remembered, what is pushed out, and that set and queue stay in step |
| `ExternalAddresses.ExternalAddressCandidates.AddCandidate` | crates/stack/external_addresses.rs:47-62 | a usable unseen address is queued once and remembered, pushing out the one remembered longest when 32 are; any other changes nothing |
| `ExternalAddresses.ExternalAddressCandidates.AddConfirmed` | crates/stack/external_addresses.rs:64-79 | the actions polled and still queued replay to exactly the confirmed set, the new address included, with an expiry first when one was pushed out |
| `ExternalAddresses.ExternalAddressCandidates.Poll` | crates/stack/external_addresses.rs:172-185 | polling hands over the oldest action and changes nothing about the whole stream |
| `Broker.CleanUpIsInvisible` | crates/connectivity/turn/broker.rs:160-174 | every request sequence gets the answers of a limiter that never forgets a window |
| `Broker.AtMostTwicePerMinute` | crates/connectivity/turn/broker.rs:160-174 | in every run a peer is admitted at most twice the limit in any 60 s span |
| `Broker.AdmittedExactly` | crates/connectivity/turn/broker.rs:160-174 | by the times of the peer's own requests: a request is admitted exactly when fewer than the limit came before it in its window, which opens with the first request a minute after the last opening |
| `Broker.OpeningFound` | crates/connectivity/turn/broker.rs:165-168 | every request falls in a window that it or an earlier request of its peer opened |
| `Broker.TurnedAwayOnlyWhenSpent` | crates/connectivity/turn/broker.rs:160-174 | in every run a request is turned away only if its peer was admitted at least the limit within the last 60 s |
| `Broker.TableForgets` | crates/connectivity/turn/broker.rs:161-164 | a table grown to 4096 peers keeps only windows of the last minute |
| `Broker.Learn` | crates/connectivity/turn/client.rs:33-40 | a new credential set holds the given servers, expires after their lifetime and is due for refresh after three quarters of it |
| `Broker.CachesLastGood` | crates/connectivity/turn/broker.rs:93-123 | in every run of maintenance rounds and finished fetches a source caches exactly the credentials collected last, until they expire |
| `Broker.LifetimeFromCollection` | crates/connectivity/turn/broker.rs:126-154 | a lifetime that fits the cached set ends within the credentials' own lifetime counted from their collection, and the servers are theirs |
| `Broker.LiveServersAre` | crates/connectivity/turn/broker.rs:131-148 | the servers offered are exactly those of sources whose set has not expired |
| `Broker.TurnBrokerState.AddSource` | crates/connectivity/turn/broker.rs:84-90 | a new source starts with nothing cached and is due at once |
| `Broker.TurnBrokerState.FetchArrived` | crates/connectivity/turn/refresh.rs:45-59 | a finished fetch fills its source's slot |
| `Broker.TurnBrokerState.MaintainOne` | crates/connectivity/turn/broker.rs:93-123 | one source collects a finished fetch, drops expired credentials and starts a due refresh |
| `Broker.TurnBrokerState.Maintain` | crates/connectivity/turn/broker.rs:93-123 | the loop does so for every source, counts the failures, and every source stays what its history makes it |
| `Broker.TurnBrokerState.Admit` | crates/connectivity/turn/broker.rs:160-174 | the in-place limiter follows the requests so far, and under a clock that does not run back admits exactly when fewer than the limit came before in the peer's window |
| `Broker.TurnBrokerState.Answer` | crates/connectivity/turn/broker.rs:126-154 | a grant carries exactly the live servers, each set the one its source collected last, and a lifetime that is the shortest of theirs and ends within every set's own counted from its collection; a refusal says why |
| `RateWindows.AtMostTwicePerSpan` | crates/connectivity/turn/broker.rs:160-174 | fixed windows of one length admit at most twice the limit in any interval of that length |
| `Refresher.TtlSecs` | crates/connectivity/turn/credentials.rs:47-51 | the lifetime is the given one, clamped to one minute and two days, and an hour if none is given |
| `Refresher.BackoffDoubles` | crates/connectivity/turn/refresh.rs:74-86 | each further failure doubles the delay up to the cap |
| `Refresher.NothingLost` | crates/connectivity/turn/refresh.rs:45-72 | over every interleaving of completions and polls at most one fetch runs or waits, and every result is collected once and in order or still waits |
| `Refresher.ScheduleFollows` | crates/connectivity/turn/refresh.rs:63-86 | in every run the next fetch is due three quarters of the lifetime after a success, and 30, 60, 120, 240, 480 and then 600 s after the first and each further error in a row |
| `Refresher.StartsExactly` | crates/connectivity/turn/refresh.rs:45-72 | in every run a fetch starts exactly when every earlier one is collected and that time has come, which after a success is before the credentials expire |
| `Refresher.ProviderRefresher.StartIfDue` | crates/connectivity/turn/refresh.rs:45-59 | a fetch starts exactly when due and none is running or uncollected |
| `Refresher.ProviderRefresher.FetchDone` | crates/connectivity/turn/refresh.rs:45-59 | a finished fetch finds the slot empty |
| `Refresher.ProviderRefresher.TakeResult` | crates/connectivity/turn/refresh.rs:63-72 | a result is taken once and sets the next due time |
| `Identity.DecodeEncode` | crates/connectivity/identity.rs:48-78 | the stored text of a key reads back as that key |
| `Identity.DecodePadded` | crates/connectivity/identity.rs:48-78 | also with white space around it |
| `Identity.StepAgrees` | crates/connectivity/identity.rs:22-46 | with an atomic create every step of every starter keeps them agreed on the stored key, and the missing-winner error is not reached |
| `Identity.OneIdentity` | crates/platform/memory.rs:36-43 | in every interleaving a stored key is never replaced |
| `Identity.SuccessesAgree` | crates/connectivity/identity.rs:22-46 | any two starters that succeed return the same key, the one stored |
| `Identity.FirstKeepsItsKey` | crates/connectivity/identity.rs:22-46 | alone on an empty store a starter keeps and returns the key it generated, and the next one returns that key |
| `Identity.TwoPartCreateDiverges` | crates/platform/traits.rs:38-44 | with the default check-then-write create two starters can return different keys |
| `IdentityFile.FileSuccessesAgree` | crates/platform/desktop.rs:147-181 | on file storage all successes are the same key in every run in which no file already written out is taken away; a write that breaks off earlier does no harm |
| `IdentityFile.PartialIsRefused` | crates/platform/desktop.rs:147-181 | a key file not yet written out reads as an error, never as another key |
| `IdentityFile.LoserMayReadPartial` | crates/platform/desktop.rs:147-181 | a starter that lost the race can fail because it reads before the winner has written |
| `IdentityFile.BrokenWriteDiverges` | crates/platform/desktop.rs:172-176 | if syncing a file already written out fails and it is removed after a loser has read it, two starters end with different keys |
| `IdentityFile.WinnerMayVanish` | crates/platform/desktop.rs:166-176 | if the winner's write breaks off and its file is removed, a loser finds the winning key missing |
| `IdentityFile.FilePromisesExact` | crates/platform/desktop.rs:147-181 | successes agree in all runs if and only if no file written out is taken away, and no loser finds the winning key missing if and only if no file is |
| `ConnectionPlans.PushCandidate` | crates/connectivity/connection_strategy.rs:323-327 | a repeated address is not added |
| `ConnectionPlans.Candidates` | crates/connectivity/connection_strategy.rs:238-269 | the requested address first, then the known ones that parse, first occurrences only |
| `ConnectionPlans.OrderedAttempts` | crates/connectivity/connection_strategy.rs:329-355 | the bucket loops compute the specified regrouping |
| `ConnectionPlans.PlanOrder` | crates/connectivity/connection_strategy.rs:329-355 | the plan holds each candidate once, grouped by kind with relays first or last, candidate order kept inside a group |
| `ConnectionPlans.SourcesAre` | crates/connectivity/connection_strategy.rs:299-309 | the candidates are the requested address and what the known texts parse to |
| `Base.DedupFirsts` | crates/connectivity/connection_strategy.rs:323-327 | what is left without repeats stands in the order of first occurrences |
| `ConnectionPlans.AllowedElems` | crates/connectivity/connection_strategy.rs:286-321 | filtering keeps exactly the allowed candidates in order |
| `ConnectionPlans.BuildPlan` | crates/connectivity/connection_strategy.rs:286-321 | the plan is duplicate-free and holds exactly the allowed candidates, QUIC before other direct addresses and relays first or last as preferred |
| `ConnectionPlans.TriedInPlanOrder` | crates/node/dial.rs:238-266 | in every run of plans, later failures and connections for any peers, what was tried out of the last plan taken up for a peer followed by its queue is that plan in order, and the peer is pending exactly while that plan is unfinished |
| `ConnectionPlans.NothingTriedTwice` | crates/node/dial.rs:238-266 | in such a run no attempt of the current plan is tried twice |
| `ConnectionPlans.ExhaustionEndsPending` | crates/node/events/connection/errors.rs:39-58 | in every run, once a dial of the current plan has failed the peer stops being pending exactly when every attempt of that plan has been tried, and at the latest at a failure none of whose fallbacks is taken up |
| `ConnectionPlans.FailedPlanChangesNothing` | crates/node/dial.rs:238-266 | after dialling a plan for a peer it is pending exactly if an attempt was taken up or it was pending before, and a plan none of whose attempts is taken up changes nothing |
| `ConnectionPlans.OlderPlanSurvives` | crates/node/dial.rs:254-265 | a second plan failing at once leaves the first plan's fallbacks queued |
| `ConnectionPlans.PendingConnectionPlans.TrackRemaining` | crates/connectivity/connection_strategy.rs:173-193 | exactly the attempts after the one taken up are queued |
| `ConnectionPlans.PendingConnectionPlans.NextAfterFailure` | crates/connectivity/connection_strategy.rs:195-206 | the queue's head is handed out and an empty queue is dropped |
| `ConnectionPlans.PendingConnectionPlans.DialConnectionPlan` | crates/node/dial.rs:238-266 | the dialling loop is the specified event, and leaves the table alone when it fails |
| `ConnectionPlans.PendingConnectionPlans.FallBack` | crates/node/events/connection/errors.rs:39-58 | the error handler's loop is the specified event, and ends the peer's entry when nothing was started |
| `ConnectionPlans.PendingConnectionPlans.Complete` | crates/connectivity/connection_strategy.rs:208-210 | a connection ends the peer's entry |
| `DirectUpgrade.StateDescribesEvents` | crates/connectivity/direct_upgrade.rs:36-78 | in every run the two maps say exactly what the events say: the latest unsettled direct connection and the relayed connections still open |
| `DirectUpgrade.ReleasesExactlyOpen` | crates/connectivity/direct_upgrade.rs:51-61 | relayed connections are released exactly by confirming the pending direct one, and all that are open are released |
| `DirectUpgrade.NoneReleasedTwice` | crates/connectivity/direct_upgrade.rs:51-78 | a connection established as relayed once, for whichever peer, is released at most once over all peers |
| `DirectUpgrade.DirectUpgradeState.RelayedEstablished` | crates/connectivity/direct_upgrade.rs:36-41 | the in-place operation is the specified event |
| `DirectUpgrade.DirectUpgradeState.DirectEstablished` | crates/connectivity/direct_upgrade.rs:44-46 | the in-place operation is the specified event |
| `DirectUpgrade.DirectUpgradeState.ConfirmDirect` | crates/connectivity/direct_upgrade.rs:51-61 | the in-place operation is the specified event, with what it releases |
| `DirectUpgrade.DirectUpgradeState.ConnectionClosed` | crates/connectivity/direct_upgrade.rs:63-73 | the in-place operation is the specified event |
| `Dns.SplitFirstDnsaddr` | crates/connectivity/dns.rs:383-398 | the scan finds the first `/dnsaddr` and everything after it, and fails exactly when there is none |
| `Dns.KeepDedup` | crates/connectivity/dns.rs:405-429 | filtering by suffix and removing repeats commute |
| `Dns.DedupConcat` | crates/connectivity/dns.rs:421-429 | removing repeats from the parts first changes nothing |
| `Dns.DedupMultiaddrs` | crates/connectivity/dns.rs:421-429 | the loop keeps first occurrences |
| `Dns.ResolveOrdinary` | crates/connectivity/dns.rs:195-235 | each admissible answer replaces the first host name, repeats removed, and no admissible answer is a failure |
| `Dns.HostAddrsExactly` | crates/connectivity/dns.rs:195-235 | an address resolves exactly when the lookup of its first host name gives an IP of the right family, `/dns4` IPv4 and `/dns6` IPv6, and to the address with each such IP in the name's place |
| `Dns.LeavesOk` | crates/connectivity/dns.rs:237-311 | every address below a request is free of `/dnsaddr` and ends with the requested suffix |
| `DnsChains.FoundIffAllSucceed` | crates/connectivity/dns.rs:237-311 | at any depth resolution finds its way exactly when nothing fails on any chain of records: at most nine levels, 1 to 32 records each, every one `dnsaddr=` and an address of at most 4096 bytes, and every host resolves |
| `DnsChains.FoundIffReachable` | crates/connectivity/dns.rs:271-302 | and what it finds are exactly the addresses at the chains' ends that carry the suffix of each name on the way |
| `DnsChains.LeavesExactly` | crates/connectivity/dns.rs:237-311 | both for a requested `/dnsaddr` address, for all answers of the resolvers |
| `Dns.RoomyFits` | crates/connectivity/dns.rs:303-307 | the running budget lasts at every depth when all addresses before filtering, and one unit per open level, fit |
| `Dns.ResolveRecords` | crates/connectivity/dns.rs:271-310 | the record loop yields all leaves without repeats, and succeeds exactly when every record resolves and the running budget lasts |
| `Dns.ResolveDnsaddr` | crates/connectivity/dns.rs:237-311 | the same for one name at any depth, with the number and depth of lookups bounded |
| `Dns.ResolveMultiaddr` | crates/connectivity/dns.rs:173-185 | whatever the answers, at most nine levels of lookups; it succeeds exactly when all leaves exist and the running budget lasts (always with at most 120 addresses), and a success is duplicate-free, at most 128 long, free of `/dnsaddr`, carries the suffix and misses no reachable address |
| `RelayMeter.AggregateGrows` | crates/connectivity/relay/metering.rs:199-210 | adding a circuit or raising one circuit's bytes never lowers the saturating aggregate |
| `RelayMeter.TotalsNeverDecrease` | crates/connectivity/relay/metering.rs:116-210 | in every run of opens, progress and closes the aggregate never goes down |
| `RelayMeter.ScanChanged` | crates/connectivity/relay/metering.rs:183-192 | the scan over active circuits, in any order, finds each moved circuit once |
| `RelayMeter.SortById` | crates/connectivity/relay/metering.rs:192 | the reports in id order |
| `RelayMeter.CollectChanged` | crates/connectivity/relay/metering.rs:183-194 | scan and sort give exactly the moved circuits in id order |
| `RelayMeter.RelayMeter.Open` | crates/connectivity/relay/metering.rs:116-145 | the circuit becomes active, recorded with the first reading of its counters and counted as reported up to the second |
| `RelayMeter.RelayMeter.Close` | crates/connectivity/relay/metering.rs:148-179 | the final bytes enter the closed totals once, and the recent list is the last 256 closures in order |
| `RelayMeter.RelayMeter.Totals` | crates/connectivity/relay/metering.rs:199-210 | the fold equals the capped sum over every circuit ever closed or open, each once, and is at least the aggregate at any earlier point of the meter's life |
| `RelayMeter.RelayMeter.TakeChanged` | crates/connectivity/relay/metering.rs:183-194 | reports exactly the circuits that moved since the last call, in id order, and leaves none due |
| `HashInputs.TagInputDetermines` | crates/connectivity/namespace.rs:177-186 | for NUL-free application ids the tag input determines network, application and tag |
| `HashInputs.TagInputAmbiguous` | crates/connectivity/namespace.rs:177-186 | every application id with a NUL shares its input with another application |
| `HashInputs.TagInputLayout` | crates/connectivity/namespace.rs:177-186 | where each field of the tag input lies |
| `HashInputs.MessageInputLayout` | crates/stack/behaviour.rs:176-200 | where each field of the message-id input lies |
| `HashInputs.MessageInputDetermines` | crates/stack/behaviour.rs:176-200 | the message-id input determines author, topic and data |
| `HashInputs.FeedMessageId` | crates/stack/behaviour.rs:176-200 | feeding the hasher piece by piece gives that input |
| `HashInputs.DedupSorted` | crates/connectivity/discovery.rs:171-172 | dropping neighbouring repeats of a sorted list leaves each name once, in strict order |
| `HashInputs.OneAscending` | crates/connectivity/discovery.rs:171-172 | a set has one strictly ascending listing |
| `HashInputs.IdentifyInputDetermines` | crates/connectivity/discovery.rs:166-183 | two nodes feed the same bytes exactly when network and set of NUL-free namespaces agree |
| `HashInputs.SameInputIffSamePieces` | crates/connectivity/discovery.rs:174-180 | for all lists of names the same bytes are fed exactly when networks agree and cutting every name at its NULs gives the same pieces |
| `HashInputs.NulNamespaceCollides` | crates/connectivity/discovery.rs:174-180 | for any two names, the two in order and the one made of both with a NUL between them feed the same bytes |
| `HashInputs.FeedNamespaces` | crates/connectivity/discovery.rs:166-183 | sorting, dropping repeats and feeding gives the input of the ascending listing |
| `Namespaces.CollapseDashes` | crates/connectivity/namespace.rs:201-203 | replacing double dashes until none is left ends and equals the one-pass collapse of dash runs |
| `Namespaces.NormalizeNamespaceSegment` | crates/connectivity/namespace.rs:188-211 | succeeds exactly when some character survives as more than a dash, with a normal form |
| `Namespaces.NormalIsFixed` | crates/connectivity/namespace.rs:188-211 | the normal forms are exactly what normalization leaves alone |
| `Namespaces.NormalizedTwice` | crates/connectivity/namespace.rs:188-211 | normalization is idempotent |
| `Namespaces.NormalizedWords` | crates/connectivity/namespace.rs:188-211 | normalization keeps every run of characters between dashes, in order |
| `Namespaces.BuildDiscoveryNamespace` | crates/connectivity/namespace.rs:143-173 | a namespace is derived exactly for an application id and tag of at most 64 and 256 bytes once trimmed, with something left of each segment shown and readable tags allowed where asked for; and what it consists of |
| `Namespaces.PathDetermines` | crates/connectivity/namespace.rs:164 | the namespace text determines network, application and tag segment |
| `Namespaces.HashedNamespaceDetermines` | crates/connectivity/namespace.rs:143-186 | equal hashed namespaces come from equal network, application and tag, or exhibit a hash collision |
| `Namespaces.CustomNamespaceCollides` | crates/connectivity/discovery.rs:133-148 | two namespaces derived from tags collide with one hand-written rendezvous namespace, which the rendezvous limit of 255 bytes admits exactly when network and application ids are short enough |

## Left out

- libp2p itself, transports, Kademlia, gossipsub and the relay data plane: their events are inputs, their results parameters.
- JSON, protobuf, base64, BLAKE3, SHA-256, PeerId and address text: function values with stated laws.
- Journal.CleanReportIsDurable: stated for fewer than 2^64 changes, because the revision counter wraps; Journal.PromisesHoldBelowWrap shows the bound is exact.
- Journal.OkFlushIsDurable: stated for fewer than 2^64 changes for the same reason.
- Heartbeat.HeartbeatNeverReplayed: assumes the wall clock does not go back; the code reads the system clock without checking that.
- AppSecurity.AppMessageNeverReplayed: assumes the wall clock does not go back, likewise.
- AutoConnectGate.GateExactly: for peers whose retry record is not evicted, and with one instant for gate and mark, as AutoConnect.RetryBudget.
- AutoConnect.RetryBudget: for peers whose retry record is not evicted by the 2048-entry cap; an evicted record starts a new budget (AutoConnect.RetryBudgetWhenFew: with at most 2048 peers none is). The gate's and the mark's clock readings of one attempt are taken as one instant.
- Broker.AdmittedExactly: assumes the clock does not go back, as the code's monotonic clock does not.
- ReassemblyRuns.DeliveredInTime: assumes the same of the reassembler's clock.
- Namespaces.NormalizeNamespaceSegment: follows the code, which accepts segments such as "_" although its error message asks for an alphanumeric character.
- Error texts and log lines: failures carry their kind where callers can see it, otherwise only that they failed.
- The remaining peer-book `record_*` operations (capabilities, relay preference, failure, unconditional disconnect): each is one more mutation passed to `MutatePeer`, which is proved for every mutation.
- In-flight DHT announce, provider and put queries, `AutoDialStats`, the TURN client's host policy and effective server list, rendezvous scheduling, peer-cache batching: easy members or no promise to prove.
- The broker's status counters are unbounded; the code's saturate at the u64 maximum.
- Classification of circuit close errors, snapshots, metrics and configuration defaults: field copies.
- IndexedDB callbacks, DNS-over-HTTPS requests, file permissions, tasks and timers: only the step each contributes.
- Host names left in an address after the first one is resolved, and the filter by local transports, are not followed further.
