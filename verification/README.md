# Verified model of a gossip yellow page for PeerCast

The program lists PeerCast channels without a central index. Nodes exchange signed channel events
(Nostr kind 30311: addressable events of NIP-01, expiration of NIP-40, live activities of NIP-53) by
flooding, keep one event per `(kind, pubkey, d)`, and show the live ones. This project models its core in
Dafny and proves what the design relies on.

Check everything with `dafny verify dfyconfig.toml`.

## What is proved

**Gossip (`Events`, `Selection`, `EventStore`, `Merging`, `Ingest`, `Propagation`, `GossipNetwork`,
`Convergence`, `CatchUp`, `Quiescence`, `Sources`, `ChannelView`, `ViewOverTime`).** `EventStore.Store`, `Ingest.DedupCache`,
`Ingest.IngestState` and `Ingest.GossipHub` are the program's objects, each method proved equal to a function
on values. About these functions:

- At a fixed clock the store, whatever the order and repeats of insertions, is the newest `storeMax` of the
  newest `maxPerPubkey` per pubkey of the last-write-wins winners. The reason is that the bounded choice is
  path independent (`Selection`).
- For any number of nodes on fixed symmetric links and any interleaving of publishing, delivery, SYNC and
  maintenance, with bad peers replaying events at will, as long as nothing is evicted and events are fresh while
  they matter: once nothing is in flight all nodes of a component hold exactly the winners of what was published
  there, and a node that asks a peer by SYNC learns all its live events; no node ever goes back to an older event; and flooding terminates with at most one message
  per event id and directed link.
- The number of times one node floods one event on is bounded, and the bound is attained.
- The list a user sees refines its specification over time: the winners of everything ever offered that are
  still live and fresh.

**Publishing (`PersonaLock`, `PublishEngine`, `EndedDominates`).** `PersonaLock` is the concurrent protocol:
one publisher per channel, its call cut into the actions between which others may run. `PublishEngine` has the
program's objects; each method is proved to be an uninterrupted run of that protocol. Between calls record and
reservation agree, and the times of a session rise whatever the wall clock does, so its final `ended`
event stays the winner in every store that evicts nothing; a session of an unassigned channel has one persona.

**PCP (`AtomCodec`, `AtomStream`, `Announce`).** The atom codec is a bijection between atoms within the limits
and the byte strings it accepts; decoding a stream does not depend on how it was cut into reads; the registry
holds nothing that no session answers for.

**Listing (`Text`, `Listing`).** Whatever a PCP client sends, the published listing passes the receivers'
checks and is read back unchanged.

**Exchange and limits (`RateLimit`, `PeerAddress`, `Pex`, `SecurityLog`, `ClockSkew`).** The SYNC smoother
against the receiver's limiter, the PEX sender against the PEX receiver, conservation in the security log,
and the median clock skew.

Where the code does not have a property its documentation or its TLA+ model names, the model follows the code
and the exact condition is proved:

- `BoundedPropagation` (at most one flood per node and event,
  docs/formal/gossip_propagation.tla:214) holds in every run exactly when freshness window + clock skew is at
  most the duplicate memory's retention. The default settings (600, 300, 600) do not meet this: a run of events
  that pass the receivers' checks makes a node flood a future-dated event twice.
- Refinement of the view holds in every run without evictions exactly when the time an event stays visible never decreases from
  an event to a newer one of its key. Publishers' events (expiration = creation + 600) meet this; a newer event
  with a shorter expiration lets an older one reappear.
- The median stays within a range holding a strict majority of samples exactly when adding two values of the
  range cannot wrap around in 64 bits.
- The smoothed SYNC answer never trips the receiver's limiter exactly when all its frames are delayed equally.
- A PEX list is longer than asked for exactly when zero entries are asked for and there is one to share.
- Ties: the larger event id wins (src/event/store.rs:298-305), where NIP-01 keeps the lower one.

## Assumptions

Equal event ids mean equal events (`UniqueIds`). Ids and pubkeys are fixed-width lower-case hex in the program,
so numbers with the same order stand for them. Signature, size and proof-of-work checks are one predicate on
events (`NodeConfig.accepts`). Parsing and printing IP addresses is a parameter of which only this is assumed:
printed addresses parse to themselves, are short and have the usual characters. Clocks, database errors, key
decryption and signing are parameters of each step.

## Model

| member | source | states |
|---|---|---|
| `Selection.Heritage` | src/event/store.rs:255-281 | an event kept from more candidates would be kept from fewer: quota then capacity never favours an older event |
| `Selection.OutcastAll` | src/event/store.rs:255-281 | dropping any candidates that would not be kept does not change what is kept |
| `Selection.PathIndependence` | src/event/store.rs:190-203 | evicting after every insertion gives the same result as one choice among everything offered |
| `Selection.OneQuotaIsEnough` | src/event/store.rs:194-201 | enforcing only the newcomer's quota enforces all quotas |
| `Selection.ReplaceKept` | src/event/store.rs:182-192 | replacing without running the eviction loops still leaves the bounded choice |
| `EventStore.Store.Insert` | src/event/store.rs:163-203 | the new entries and the outcome for every case: no key, stale or expired, known id, older, replaced, stored and evicted; ids stay those of the entries |
| `EventStore.Store.RemoveKey` | src/event/store.rs:246-252 | removes one key and its id, nothing else |
| `EventStore.Store.IdsAreHeldIds` | src/event/store.rs:114-120 | the id set is exactly the ids of the held events |
| `EventStore.Store.OldestAmong` | src/event/store.rs:284-296 | finds an entry no other is older than, by time then id, and none only of no keys |
| `EventStore.Store.EnforcePubkeyQuota` | src/event/store.rs:255-271 | the loop leaves exactly the newest `maxPerPubkey` of that pubkey and all others |
| `EventStore.Store.EnforceCapacity` | src/event/store.rs:274-281 | the loop leaves exactly the newest `storeMax` |
| `EventStore.Store.SweepStale` | src/event/store.rs:221-244 | removes exactly the stale and expired entries, counts them, and keeps ended ones until then |
| `EventStore.InsertKeepsInv` | src/event/store.rs:163-203 | entries stay filed under their own keys with distinct ids |
| `EventStore.WinnerOfKey` | src/event/store.rs:298-305 | every key that was offered has a last-write-wins winner |
| `EventStore.WinnersUnique` | src/event/store.rs:298-305 | and only one |
| `EventStore.InsertMeetsSpec` | src/event/store.rs:163-203 | one insertion takes the specified store for a set of offers to that for the set with the event added |
| `EventStore.BoundedStore` | src/event/store.rs:163-203 | any insertions at one clock value leave exactly the top `storeMax` of the per-pubkey tops of the winners among the fresh, unexpired events offered |
| `EventStore.BoundedStoreOrderFree` | src/event/store.rs:163-203 | so order and repeats do not matter |
| `EventStore.LaterThenLargerIdWins` | src/event/store.rs:298-305 | in either order, of two events of a key the later one stays, and of two equally old ones that with the larger id |
| `EventStore.ReasonsInOrder` | src/event/store.rs:163-187 | exactly when an event is rejected for each reason, and that a rejection changes nothing |
| `Merging.InsertMerges` | src/event/store.rs:163-203 | an insertion that evicts nothing is a last-write-wins merge, and it propagates exactly when it told the store something new |
| `Merging.RoomEvictsNothing` | src/event/store.rs:255-281 | with room for all keys ever inserted neither quota nor capacity takes anything away |
| `Merging.MergeCovers` | src/event/store.rs:298-305 | a merge covers the event and everything covered before |
| `Ingest.CapacityKept` | src/event/store.rs:274-281 | a store within its capacity stays within it |
| `Ingest.DedupCache.CheckAndInsert` | src/event/store.rs:352-376 | forgets expired ids, reports whether the id is known and remembers a new one |
| `Ingest.IngestState.Ingest` | src/p2p/ingest.rs:77-101 | the whole node state and whether to flood on, for rejected, duplicate, not stored and stored events |
| `Ingest.IngestState.Publish` | src/p2p/ingest.rs:107-119 | remembers the id, inserts, and clears the sources of a stored event |
| `Ingest.IngestState.SweepStale` | src/p2p/ingest.rs:163-181 | sweeps the store and drops the sources of keys that are not live |
| `Ingest.IngestState.SyncEvents` | src/p2p/ingest.rs:133-154 | answers exactly what is held, not ended, unexpired, within the freshness window and not older than asked for, oldest first; the final cut never removes any |
| `Ingest.SortAscending` | src/p2p/ingest.rs:147-152 | the answer is sorted by time, then id, with every event once |
| `Ingest.GossipHub.Broadcast` | src/p2p/hub.rs:238-248 | appends the event to every queue but the excluded one, which stays as it is |
| `Ingest.GossipHub.OnEvent` | src/p2p/hub.rs:205-230 | floods exactly the events ingest hands back, to everyone but the sender |
| `Ingest.GossipHub.Publish` | src/p2p/hub.rs:269-275 | floods exactly the stored or replacing events, to everyone |
| `Propagation.RefloodNeeds` | src/p2p/ingest.rs:77-101 | flooding on needs a forgotten id, a fresh event and a date within the allowed skew, and leaves the id remembered |
| `Propagation.RefusedLeavesNoTrace` | src/event/schema.rs:411-439 | an event that fails the checks changes nothing, not even the duplicate memory |
| `Propagation.EchoIsDropped` | src/p2p/ingest.rs:107-111 | a node's own event that comes back is not flooded again, even if the store could not keep it |
| `Propagation.Spacing` | src/event/store.rs:352-376 | successive floods of one event are more than a retention period apart, through any ingests, publishes, evictions, replacements and sweeps |
| `Propagation.PropagationBound` | src/p2p/ingest.rs:77-101 | n floods need (n-1)(retention+1) <= window + skew, hence (n-2)*retention < skew |
| `Propagation.AtMostTwice` | src/event/store.rs:330 | at most two floods when the skew is at most the retention |
| `Propagation.AtMostOnceUnlessFutureDated` | src/event/schema.rs:428-431 | at most one flood of an event not dated after its floods |
| `Propagation.RoundsRefloodOnceEach` | src/p2p/ingest.rs:77-101 | a concrete run, from any start time and with any distinct ids, that floods one accepted event once per round while it is acceptable |
| `Propagation.PropagationBoundExact` | src/p2p/ingest.rs:77-101 | for any node that accepts the events of that run, a run with n floods exists if and only if the bound allows n |
| `Propagation.AtMostOnceExact` | docs/formal/gossip_propagation.tla:214 | for any such node the protocol model's bound of one holds in every run if and only if window + skew <= retention |
| `Propagation.ReceiverAcceptsEvents` | src/event/schema.rs:381-431 | all events of that run can be written with tags that pass the format and content checks, so a receiver that accepts what passes them and is signed accepts the run |
| `Propagation.TwiceByDefault` | src/p2p/ingest.rs:77-101 | with the default settings such a receiver floods one signed event twice in that run |
| `GossipNetwork.IngestMerges` | src/p2p/ingest.rs:77-101 | a received event that passes the checks, or is outdated at the node, is merged, and floods exactly if the node did not cover it, although duplicates are dropped unread |
| `GossipNetwork.StepKeepsInv` | src/p2p/hub.rs:205-275 | publishing, delivery, reception from outside, SYNC and maintenance keep: across each link, what one end holds the other covers or has on its way |
| `GossipNetwork.RunInv` | src/p2p/hub.rs:205-275 | hence every state has it of every run that evicts nothing and in which events are fresh when they are published, received or swept for, unless outdated |
| `GossipNetwork.RoomIsCalm` | src/event/store.rs:255-281 | a run in which every node has room for all keys evicts nothing |
| `Convergence.StoreMonotonic` | docs/formal/gossip_propagation.tla:217-220 | in such a run a node never replaces a key's event by an older one or loses it |
| `Convergence.RunOrigin` | src/p2p/hub.rs:238-248 | everything held or in flight in a component was published in it or came into it from outside |
| `Convergence.Converges` | docs/formal/gossip_propagation.tla:222 | when nothing is in flight every node of a component holds exactly the winners of what entered the component |
| `Convergence.ConvergesDespiteReplays` | docs/formal/gossip_propagation.tla:168-176 | however bad peers replay published events, these are the winners of what the component's nodes published |
| `CatchUp.SyncSends` | src/p2p/ingest.rs:133-154 | a SYNC answer carries every held event that is live, fresh and not older than asked for |
| `CatchUp.SyncCatchesUp` | src/p2p/hub.rs:280-285 | from any state, also with nodes that came in empty: once the answer's message with an event is no longer under way, the asker has it or a newer one |
| `CatchUp.AskerHasEverythingLive` | src/p2p/sync.rs:29-31 | asking from the start of the window leaves out nothing: with nothing under way to it the asker has all the answerer's live events |
| `Sources.SourcesAreTrue` | src/p2p/ingest.rs:107-128 | in any run of a node what is held under a key was stored there last, and the peer told for a live event is the one it was stored from |
| `Sources.OnlyListedSourcesLeft` | src/p2p/ingest.rs:163-181 | a sweep that removes something leaves only the sources of listed channels |
| `Quiescence.MemoryAfterIngest` | src/p2p/ingest.rs:88-100 | a flood spends the node's one chance for that id; nothing is forgotten at an unchanged clock |
| `Quiescence.DeliveryUsesBudget` | src/p2p/hub.rs:205-248 | every delivery decreases messages in flight plus unspent (link, id) pairs |
| `Quiescence.FloodingTerminates` | docs/formal/gossip_propagation.tla:299 | from any state, deliveries plus messages left are at most the messages at the start plus ids times directed links |
| `Quiescence.ReachesSilence` | docs/formal/gossip_propagation.tla:299 | and a state with nothing in flight is reached |
| `ChannelView.CollectMutes` | src/event/view.rs:76-98 | an event is muted exactly when its pubkey or its channel is listed |
| `ChannelView.Aggregate` | src/event/view.rs:106-139 | exactly one row per shown event with its sources, newest first |
| `ChannelView.Alphabetical` | src/event/view.rs:132-138 | channels of one author and date are in alphabetical order |
| `ChannelView.Snapshot` | src/p2p/ingest.rs:157-160 | the list is exactly the live, fresh, unmuted, readable held events |
| `ViewOverTime.ViewRefines` | src/event/store.rs:208-244 | over any run of offers and sweeps in which nothing is evicted, however many keys come and go, the live events held are exactly the live, fresh winners of everything ever offered |
| `ViewOverTime.RoomIsQuiet` | src/event/store.rs:255-281 | a run whose keys would all fit at once evicts nothing |
| `ViewOverTime.StandardExpiry` | src/event/schema.rs:143-146 | events as publishers write them meet the condition |
| `ViewOverTime.Reappears` | src/event/store.rs:221-244 | otherwise sweeping lets an older event come back: a run of offers that are fresh and, if the newer event can be received at all, within the clock skew |
| `ViewOverTime.ViewRefinesExactly` | src/event/store.rs:208-244 | the view is right in every run that evicts nothing if and only if visibility follows the replacement order, or the store can hold nothing |
| `ViewOverTime.EndedStaysDown` | src/event/store.rs:221-244 | once a key's last event, an ended one, was offered, no order, repeat or sweep without eviction lists the channel again |
| `ViewOverTime.ListAfterRun` | src/p2p/ingest.rs:157-160 | after such a run the list has exactly one row, with its sources, for each unmuted key whose winner over everything offered is live and fresh: newest first, then by author, then by channel |
| `PersonaLock.SelectedFrozen` | src/broadcast.rs:73-106 | while any channel is on the air no step changes the selection or archives or deletes that persona |
| `PersonaLock.StepKeepsSession` | src/event/publish.rs:116-239 | every step of anyone keeps, for every channel, the agreement of record, reservation, session times and the publisher's place in its call |
| `PersonaLock.RisingTimes` | src/event/publish.rs:210-239 | in every interleaving, assignments included, the times of one session's events strictly rise whatever the wall clock does |
| `PersonaLock.DatedByTheClock` | src/event/publish.rs:216-224 | in every run an event is dated by the clock of the step that sends it, and later only if its session has an event of the second before |
| `PersonaLock.StepKeepsInv` | src/event/publish.rs:116-239 | every action of every publisher and every persona call keeps each unassigned channel's persona lock |
| `PersonaLock.OnePersonaPerSession` | src/event/publish.rs:116-239 | in every interleaving one session's events of an unassigned channel have one pubkey, and nothing follows `ended` |
| `PersonaLock.RecordedIffBroadcasting` | src/event/publish.rs:116-207 | between calls any channel, assigned or not, is in the engine's states exactly when it is on the air |
| `PublishEngine.BroadcastState.ReserveAndReadSelected` | src/broadcast.rs:73-84 | reserves the channel exactly when a persona was resolved |
| `PublishEngine.BroadcastState.Release` | src/broadcast.rs:87-89 | takes one channel off the air |
| `PublishEngine.IdentityManager.Select` | src/identity/mod.rs:309-327 | succeeds exactly for an active, usable persona with nothing on the air, and is then the protocol's step |
| `PublishEngine.IdentityManager.SetState` | src/identity/mod.rs:273-293 | archiving the selected persona is refused exactly while something is on the air; otherwise an existing persona gets the state and nothing else changes |
| `PublishEngine.IdentityManager.Delete` | src/identity/mod.rs:384-401 | likewise; the persona and exactly its assignments go |
| `PublishEngine.IdentityManager.AssignChannel` | src/identity/mod.rs:358-364 | assigns any existing persona to the channel, unguarded |
| `PublishEngine.Engine.SignAndSend` | src/event/publish.rs:210-239 | dates the event by the clock, or one second after the channel's last event if the clock is not later, sends and records it; a failure changes nothing |
| `PublishEngine.Engine.PublishListing` | src/event/publish.rs:116-178 | the whole effect of a listing call: hold back, reserve, end the former persona's row, list, or roll the reservation back |
| `PublishEngine.Engine.PublishEnded` | src/event/publish.rs:181-207 | the whole effect of an ending call; the channel is released unless the database fails before a persona is known |
| `PublishEngine.ListingIsCall` | src/event/publish.rs:116-178 | a listing call is an uninterrupted run of the protocol |
| `PublishEngine.EndingIsCall` | src/event/publish.rs:181-207 | so is an ending call |
| `PublishEngine.EngineKeepsLock` | src/event/publish.rs:116-207 | no call breaks the session invariant of any channel or the persona lock of any unassigned one |
| `PublishEngine.SamePersonaExactly` | src/event/publish.rs:144-160 | a listing call for a listed channel signs with another persona if and only if another one is resolved and can sign |
| `PublishEngine.ListingSends` | src/event/publish.rs:116-178 | a listing call sends a live event by the assigned persona, or else the selected, active, usable one, and puts the channel on the air |
| `PublishEngine.FormerIsEnded` | src/event/publish.rs:144-163 | before a new persona's first event comes the former one's ended event |
| `PublishEngine.HeldBack` | src/event/publish.rs:136-142 | with nobody to sign nothing happens |
| `PublishEngine.FailedFirstListing` | src/event/publish.rs:165-177 | a first listing that cannot be signed leaves nothing on the air |
| `PublishEngine.EndingSends` | src/event/publish.rs:181-207 | ending a listed channel sends one ended event by the persona that listed it, if it can sign, and takes it off the air either way |
| `PublishEngine.EndingUnlistedSends` | src/event/publish.rs:181-207 | ending an unlisted channel sends an ended event by the persona that must sign |
| `EndedDominates.EndedSessionStaysEnded` | src/event/publish.rs:181-239 | a store that was offered a session's last event, an ended one, and evicts nothing never lists that key again, however the session's events are delivered, repeated and swept and whatever arrives under other keys |
| `EndedDominates.EndedIsFinal` | src/event/publish.rs:181-207 | on an unassigned channel every ended event is its session's last |
| `EndedDominates.SentIsFresh` | src/event/publish.rs:216-224 | what a publisher sends is fresh at its clock, whatever the settings |
| `AtomCodec.EncodeTo` | src/pcp/atom.rs:204-220 | appends the encoding, children in order |
| `AtomCodec.DecodeChildren` | src/pcp/atom.rs:257-269 | the position loop decodes the children one after another |
| `AtomCodec.DecodeLoop` | src/pcp/atom.rs:240-280 | decodes one atom, in the source's order of checks |
| `AtomCodec.DecodeEncoded` | src/pcp/atom.rs:204-280 | an encoded atom within the limits, followed by anything, decodes to itself and its exact length |
| `AtomCodec.EncodeDecoded` | src/pcp/atom.rs:240-280 | what was decoded is within the limits and encodes to exactly the bytes consumed |
| `AtomCodec.DecodeStable` | src/pcp/atom.rs:240-280 | more bytes never change a success or an error |
| `AtomCodec.CutShortIsIncomplete` | src/pcp/atom.rs:240-280 | every proper prefix of a valid atom is incomplete, never an error and never another atom |
| `AtomCodec.DecodeVerdict` | src/pcp/atom.rs:240-280 | whatever part of an atom has arrived, followed by anything: the decoder waits exactly until the verdict is known, then gives the atom or the error of the first limit broken in reading order |
| `AtomCodec.VerdictOfWithin` | src/pcp/atom.rs:240-280 | the verdict is an atom exactly for atoms within the limits, and then needs all their bytes |
| `AtomCodec.WireFormat` | src/pcp/atom.rs:204-220 | name, length or flagged count, then payload or children |
| `AtomCodec.LittleEndian` | src/pcp/atom.rs:204-220 | the length field is little-endian |
| `AtomStream.Connection.OnRead` | src/pcp/session.rs:636-675 | one read: append, hand over complete atoms until the session quits, then check the pending limit |
| `AtomStream.DrainInTwo` | src/pcp/session.rs:645-673 | draining in two goes is draining at once |
| `AtomStream.ChunkingIrrelevant` | src/pcp/session.rs:636-675 | for any bytes and any session, unless the pending limit closed it, the outcome does not depend on the reads |
| `AtomStream.PendingIsBounded` | src/pcp/session.rs:660-666 | an open connection never has more than the limit pending |
| `AtomStream.OverflowsExactly` | src/pcp/session.rs:660-666 | a read closes the connection for what is pending exactly when more than 262144 bytes are |
| `AtomStream.NeverOverflows` | src/pcp/session.rs:660-666 | no reads of a valid stream trip the pending limit |
| `AtomStream.ValidStreamDelivered` | src/pcp/session.rs:636-675 | every split of a valid stream hands over exactly its atoms, or those up to the one the session quits on |
| `AtomStream.WholeStreamDelivered` | src/pcp/session.rs:636-675 | a session that does not quit gets the whole stream and nothing is left pending |
| `Announce.ChannelRegistry.Upsert` | src/pcp/channel.rs:320-340 | files the channel as announced if new and updating if known and tells subscribers which; they can rebuild the registry from what they are told |
| `Announce.ChannelRegistry.End` | src/pcp/channel.rs:343-352 | removes the channel, says whether it was there and tells subscribers exactly then |
| `Announce.AnnounceSession.OnAtom` | src/pcp/session.rs:240-384 | tracks, updates, stops or refuses a channel as the protocol's two halves do, never more than sixteen |
| `Announce.AnnounceSession.EndAll` | src/pcp/session.rs:388-394 | ends all of the session's channels and no others |
| `Announce.HostNotice` | src/pcp/session.rs:263-384 | a host notice lists its channel if bit 4 of its flags is set, up to sixteen, and unlists it otherwise |
| `Announce.ChannelNotice` | src/pcp/session.rs:263-384 | channel information without a host notice lists its channel |
| `Announce.ChannelAndHostNotice` | src/pcp/session.rs:263-384 | with both the host notice decides, one inside the channel information first |
| `Announce.Disconnects` | src/pcp/session.rs:240-299 | a quit, or a channel notice whose id is missing or not sixteen bytes, ends the session |
| `Announce.HangupEnds` | src/pcp/session.rs:677-681 | a connection that goes away ends the session |
| `Announce.OthersIgnored` | src/pcp/session.rs:240-275 | other atoms, and broadcasts about no channel, change nothing |
| `Announce.NamesAreText` | src/pcp/atom.rs:47-53 | atom names are their letters filled up with zeros |
| `Announce.StepKeepsInv` | src/pcp/session.rs:263-394 | every half step keeps: each listed channel is answered for by a session |
| `Announce.ChannelsHaveAnnouncers` | src/pcp/session.rs:263-394 | in every interleaving each listed channel has an announcer, and no session tracks more than sixteen |
| `Announce.RegistryWithinTracked` | src/pcp/session.rs:263-394 | between atoms the registry is within the union of the tracked channels |
| `Announce.NothingOutlivesAnnouncers` | src/pcp/session.rs:388-394 | when all sessions have ended the registry is empty |
| `Text.TruncateBytes` | src/pcp/channel.rs:219-228 | stepping back to a boundary gives the longest prefix of whole characters within the limit |
| `Text.TakenFits` | src/pcp/channel.rs:219-228 | that prefix fits, and one more character would not |
| `Text.StripsPiecewise` | src/security/mod.rs:115-118 | removing control characters works character by character |
| `Text.StripsControlOnly` | src/security/mod.rs:115-118 | it removes exactly U+0000 to U+001F and U+007F to U+009F |
| `Text.Utf8Lengths` | src/pcp/channel.rs:219-228 | lengths are those of UTF-8 |
| `Text.HexAt` | src/pcp/channel.rs:150-156 | each byte is two hexadecimal digits, the high one first |
| `Text.DigitsInOrder` | src/event/schema.rs:557-563 | printed numbers have the units' digit last |
| `Text.ParsePrinted` | src/event/schema.rs:557-563 | a printed 64-bit number parses back |
| `Listing.WriteTags` | src/event/schema.rs:122-184 | pushes the tags in order, leaving out what is unknown |
| `Listing.WrittenIsFound` | src/event/schema.rs:521-545 | every lookup finds exactly what was written under its name |
| `Listing.ListingReadsBack` | src/event/schema.rs:213-275 | a sanitised listing is read back identically, with unknown counts, empty fields and status |
| `Listing.FormatAccepted` | src/event/schema.rs:381-404 | its tags pass the receiver's format check |
| `Listing.SanitizedIsPublishable` | src/pcp/channel.rs:125-247 | every raw record becomes a listing without control characters, within all lengths and ranges |
| `Listing.ListingEndToEnd` | src/pcp/channel.rs:125-247 | every raw record passes the checks and comes back as the identical listing |
| `Listing.ReceiversSeeTheChannel` | src/pcp/channel.rs:125-199 | what receivers read is what the raw record says, part by part: status, title, genre in lower case, texts cut at their own limits, empty ones left out, counts, bitrate, tracker, track; and different channels have different `d` |
| `Listing.FormatRefusesOthers` | src/event/schema.rs:381-404 | the format check lets nothing through with another kind, too many tags, a long element, or without a 32-digit `d` and a known status as the first of their tags |
| `Listing.ContentRefusesOthers` | src/event/schema.rs:213-275 | what passes the content check has no control characters, a tracker that parses and a bitrate in range |
| `Listing.TagValueIsFirst` | src/event/schema.rs:521-531 | a lookup gives the first tag of the name that has a value, and none only if there is none |
| `Listing.PecaSliceIsFirst` | src/event/schema.rs:533-539 | likewise for the extension tags |
| `Listing.ShortTrack` | src/event/schema.rs:277-305 | elements missing at the end of a track tag are read as empty |
| `Listing.CountCast` | src/event/schema.rs:546-555 | a count above the signed range becomes negative |
| `Listing.KeepsPiecewise` | src/pcp/channel.rs:236-240 | content types are filtered character by character |
| `Listing.KeepsLettersAndDigitsOnly` | src/pcp/channel.rs:236-240 | exactly ASCII letters and digits stay |
| `Listing.PublishedEvent` | src/event/schema.rs:465-485 | the store files it under its channel, expiring 600 seconds on, ended exactly if it says so |
| `Listing.SeenByStore` | src/event/schema.rs:465-485 | what the store sees of a listing's tags: key, expiration and status, whatever the event's date |
| `RateLimit.RateLimiter.ChargeFrame` | src/p2p/session.rs:173-189 | counts a frame in its one-second window and says whether both limits hold |
| `RateLimit.AtMostTwiceTheLimit` | src/p2p/session.rs:365-385 | in any half-open second at most twice the messages and twice the bytes get through |
| `RateLimit.StreamSyncResponse` | src/p2p/sync.rs:45-73 | the smoother's loop sends each message at the start of a window with room for it, and stops where the queue closes |
| `RateLimit.AnswerComplete` | src/p2p/sync.rs:45-73 | the answer is complete, in order, never back in time, and ends with SYNC_DONE |
| `RateLimit.SmootherMeetsLimiter` | src/p2p/sync.rs:45-73 | for any length and any phase of the receiver's window no frame of it trips the limiter |
| `RateLimit.LateWindowTrips` | src/p2p/session.rs:173-189 | a smoothed answer of 300 small messages whose first window is late by any jitter up to a second trips it |
| `RateLimit.JitterExact` | src/p2p/session.rs:173-189 | with delays varying by up to some jitter and frames in order, no answer ever trips the limiter if and only if the jitter is zero |
| `PeerAddress.ValidateHostname` | src/p2p/peers.rs:208-227 | accepts exactly ASCII names of valid labels (section 2.1 of RFC 1123) and lower-cases them |
| `PeerAddress.PortShrinks` | src/p2p/peers.rs:229-235 | printing a port never makes an address longer |
| `PeerAddress.HostnameExactly` | src/p2p/peers.rs:208-227 | a hostname is accepted exactly if all its labels, by position, follow section 2.1 of RFC 1123 |
| `PeerAddress.PlainParses` | src/p2p/peers.rs:162-200 | what a text with one colon parses to: an IPv4 address, a lower-cased hostname, or which error |
| `PeerAddress.BracketParses` | src/p2p/peers.rs:145-160 | what a bracketed text parses to |
| `PeerAddress.OtherTextsAreBad` | src/p2p/peers.rs:137-175 | all other texts are refused, with their reasons |
| `PeerAddress.CanonicalIsFixedPoint` | src/p2p/peers.rs:101-200 | the canonical form of any parsed address parses to the same address |
| `PeerAddress.CanonicalIdentifies` | src/p2p/peers.rs:101-200 | two texts have the same canonical form exactly when they parse alike |
| `PeerAddress.ConnectedIsCanonicalIp` | src/p2p/peers.rs:115-122 | a live connection's address prints as a canonical IP literal |
| `Pex.SelectPeersForPex` | src/p2p/pex.rs:38-61 | distinct addresses, each of the best-ranked verified, enabled peer not emitted before, and all of them if there is room |
| `Pex.LongerOnlyAtZero` | src/p2p/pex.rs:53-57 | the list exceeds the limit if and only if the limit is zero and something can be shared |
| `Pex.HandedOutIsOffered` | src/p2p/pex.rs:38-75 | every address handed out is a verified, enabled peer's own IP address or the one its hostname was reached at |
| `Pex.RecentFirst` | src/p2p/pex.rs:41-46 | a peer reached more recently, or as recently with a larger id, comes first |
| `Pex.NothingMissing` | src/p2p/pex.rs:47-60 | unless the list is full nothing that could be handed out is missing |
| `Pex.ValidateIncomingPeers` | src/p2p/pex.rs:144-174 | each address is accepted, benign or suspicious as the judgement of those before it decides |
| `Pex.OverlongIsRefused` | src/p2p/pex.rs:150-153 | more than the limit is suspicious as a whole |
| `Pex.SuspiciousExactly` | src/p2p/pex.rs:155-171 | exactly what does not parse or is a hostname is suspicious |
| `Pex.AcceptedExactly` | src/p2p/pex.rs:155-171 | exactly the other addresses that are not the receiver's own are accepted |
| `Pex.NothingLost` | src/p2p/pex.rs:144-174 | every address is judged once; accepted ones are distinct, no hostnames and not the receiver's own |
| `Pex.RegisteringKeepsTable` | src/p2p/peers.rs:452-459 | registering an address keeps the table canonical |
| `Pex.ResolvingKeepsTable` | src/p2p/peers.rs:495-498 | recording the IP of a live connection keeps the table canonical |
| `Pex.SenderMeetsReceiver` | src/p2p/pex.rs:38-174 | no receiver finds anything suspicious in what any table hands out, and it turns down exactly its own addresses |
| `SecurityLog.RotatingFile.Rotate` | src/security/mod.rs:195-205 | each generation moves up by one, the oldest goes, the current one is empty |
| `SecurityLog.RotatingFile.WriteLine` | src/security/mod.rs:207-220 | appends, after rotating if needed; the files read back a suffix of all lines, each file within its size unless it is one line |
| `SecurityLog.WithLineKeepsTheRest` | src/security/mod.rs:207-220 | only a line that does not fit costs anything, and then exactly the oldest file |
| `SecurityLog.Log.FlushExpired` | src/security/mod.rs:319-339 | writes one count line per window that is over and counted something, and forgets these windows |
| `SecurityLog.Log.Report` | src/security/mod.rs:272-309 | flushes, then writes the first event of a window or counts a later one; nothing is lost |
| `SecurityLog.OpenForTenSeconds` | src/security/mod.rs:280-283 | a window is open for ten seconds |
| `SecurityLog.Log.Flush` | src/security/mod.rs:312-317 | as `FlushExpired` |
| `SecurityLog.Replay` | src/security/mod.rs:272-339 | over any calls and clocks: reports = detail lines + aggregated counts + pending counts, and the files read back a suffix |
| `SecurityLog.AllWritten` | src/security/mod.rs:319-339 | a flush when all windows are over leaves nothing pending |
| `ClockSkew.ClockSkewStatus` | src/web/announced.rs:71-91 | reports the median of any sorted arrangement of the samples, and warns exactly when it is further from zero than the threshold (never for the least 64-bit value) |
| `ClockSkew.MedianOfAnySort` | src/web/announced.rs:78-87 | the median does not depend on how the samples were sorted |
| `ClockSkew.TwoSamples` | src/web/announced.rs:83-86 | of two samples the median is the mean, rounded toward zero |
| `ClockSkew.MedianRobust` | src/web/announced.rs:71-91 | a strict majority in a range keeps the median there, if and only if sums of two values of the range cannot wrap out of it |

## Left out

- TCP, async tasks, UPnP, HTTP routes, settings, the command line: plumbing without the rules modelled here.
- Cryptography, key storage, Shift_JIS, JSON and SQL: foreign code; what it decides is a parameter. In particular the size of a serialised event is not computed.
- Handshakes, keepalive, SYNC counting, peer slots and backoff: each is settled by reading one branch.
- Late joiners: links are fixed. SYNC answers carry no `ended` events (src/p2p/ingest.rs:139-145), so a node that joins after a channel ended need not learn of it.
- Evictions in the network: `Converges` and `StoreMonotonic` are about runs in which no node evicts anything and held events stay fresh; a full store forgets winners by design.
- Source peers in the network model: every delivery there has the same source text; `Ingest.IngestState.Ingest` has them in full.
- Concurrent publishing on one channel: the engine relies on one call at a time per channel (src/event/publish.rs:168-170). One persona per session is not claimed for channels under `assign_channel`, which is not guarded: reassigning a listed channel ends its row and goes on under the new persona.
- PublishEngine.Engine.PublishListing: the listing's content, proof of work and lower-casing of channel ids are left out; ids made from PCP are lower-case already.
- Announce.AnnounceSession.OnAtom: the handshake, the byte rate limit and merging of fields into the channel record are left out; the registry holds states, not full records.
- Announce.ChannelRegistry.Upsert: changes are told under the lock; the program sends them just after it, so those of two sessions acting at once may swap.
- Announce.ChannelRegistry.End: likewise.
- AtomStream.Connection.OnRead: the session's decision to quit is a function of the atoms so far; its byte rate limit, which looks at the clock, is left out.
- RateLimit.StreamSyncResponse: sends take no time. Times are reals, not floats.
- SecurityLog.RotatingFile.WriteLine: file operations succeed; a failed write loses its line in the program.
- Reading a `Vec` or `HashMap` in an unspecified order is modelled by an arbitrary choice; mutual exclusion by atomic steps; lock poisoning and memory ordering are left out.
