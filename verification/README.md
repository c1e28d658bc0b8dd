# A verified model of XaeroFlux

XaeroFlux is a peer-to-peer event log: every node stores events in a table, gossips
the ones its application submits, and delivers to its application the ones that
arrive. Around the log a bootstrap node tracks which peers are online in which group
and introduces them to each other, serves materialised snapshots of groups, swarms
content-addressed blobs, and publishes a signed rendezvous config. This project
models those parts in Dafny and proves what they promise.

`dafny verify dfyconfig.toml` checks everything.

| files | what they hold |
|---|---|
| `Replication.dfy` | one node as two actors over one table (as atomic steps and as an object), and a mesh of nodes over gossip |
| `ReplicationSafety.dfy`, `Ordering.dfy`, `Convergence.dfy`, `Settling.dfy` | exactly-once, provenance and order in every reachable state; what the tables hold when the mesh has settled; that it can always settle; what happens without the hypotheses |
| `PeerTracking.dfy`, `TrackerRuns.dfy` | the peer table with its write-through cache, any statement failing; invariants over runs |
| `Discovery.dfy`, `DiscoveryRuns.dfy`, `Exchanges.dfy` | the discovery task; what its broadcasts promise over runs; who is introduced when |
| `Snapshot.dfy`, `SnapshotFold.dfy`, `SnapshotContents.dfy`, `SnapshotWire.dfy` | the snapshot fold, what a snapshot holds entry by entry, the length-prefixed transfer, the sync clock, the messages |
| `Swarm.dfy`, `SwarmProtocol.dfy` | who-has / i-have negotiation, the multi-holder fetch, the negotiation as a protocol |
| `Json.dfy`, `JsonRoundTrip.dfy`, `JsonReading.dfy`, `WireText.dfy`, `MessageTexts.dfy`, `Text.dfy` | JSON writing (compact and pretty) and reading, what is accepted, every message written out, decimal, hexadecimal, UTF-8, and their round trips |
| `Rendezvous.dfy`, `Events.dfy` | the signed config; event ids and the wire forms of events and introductions |
| `Scope.dfy` | the scope tracker of the bootstrap binary as an index over history |
| `Wrappers.dfy` | options, results, result sets in an unspecified order |

How the outside world appears:

- SQLite tables are maps with the primary key as key; a statement that may fail has
  its outcome as a parameter. `ok = false` on an insert covers, among others, a `ts`
  above 2^63 - 1, which SQLite cannot store.
- A mutex-protected statement is one atomic step. Between releasing the table and
  forwarding the event lies a state of its own.
- Gossip is the set of all messages ever sent: any of them may arrive anywhere, at any
  time, repeatedly or never.
- Clocks, dials, transfers, failed sends and the order of result sets and of hash map
  entries are parameters or left open.
- Blake3 is a function that is assumed not to collide on the texts at hand. Ed25519 is
  a record of functions with the correctness of section 5.1 of RFC 8032: signatures are
  64 bytes and verify under the signer's key. That a signature is no forgery for one
  other message and key is a condition of the result about it, not an assumption.
  Verified streaming is the rule that only chunks of the blob are added. All of these
  are hypotheses of the lemmas that use them.

Where the code differs from what it promises:

- Ids are called unique (`src/lib.rs:43`), but the hashed text has no separators:
  `Events.IdCollision` gives events with one id, `Events.IdDeterminesEvent` the
  exact condition.
- Tables converge only if no application submits in the name of another node that did
  not submit the event itself, and every event is broadcast with success:
  `Convergence.ConvergesExactlyWhenEventsGetOut` gives the condition,
  `Settling.ForgedSourceDiverges` and `Settling.FailedBroadcastDiverges` the examples. A
  failed broadcast is not repaired unless another node submits the event itself
  (`Settling.FailedBroadcastIsForGood`).
- `latest_ts` is documented as the time of the most recent item
  (`src/snapshot.rs:45`); it is the time of the last event applied, even of one that
  cannot be read (`SnapshotFold.LatestTimeExactly`, `SnapshotFold.LateItemSetsTimeBack`,
  `SnapshotFold.UnreadableEventMovesTime`).
- A replayed chat is listed again (`SnapshotFold.ReplayedChatExactly`).
- A frame of 2^32 bytes or more is announced with its length modulo 2^32
  (`SnapshotFold.FrameRoundTripExactly`).
- A last sync in the future makes the freshness check underflow
  (`SnapshotFold.FreshnessExactly`).
- A prune whose reload fails leaves departed peers in the cache
  (`TrackerRuns.AgreementLostExactly`).
- A board nobody created is filed under the workspace with the id "unknown", if there
  is one (`Scope.UnknownBoardExactly`).
- The receive loop of the bootstrap ends when an id it prints has a character across
  byte 16 (`Scope.ScopeTracker.Receive`, `Utf8.CutExactly`).

## Model

| member | source | states |
|---|---|---|
| Actors.NodeProcess.constructor | src/lib.rs:222-263 | a started node has empty queues, idle actors and the table found on disk |
| Actors.NodeProcess.Insert | src/lib.rs:359-362 | INSERT OR IGNORE: the first row with an id stays; the row count tells new from duplicate; a failure changes nothing |
| Actors.NodeProcess.StorageReceive | src/lib.rs:355-376 | the storage actor takes one event and holds it for sending exactly when its id was new and the insert succeeded |
| Actors.NodeProcess.StorageForward | src/lib.rs:368-370 | after the table is released the held event goes to the end of the network queue, or is lost when the send fails |
| Actors.NodeProcess.GossipReceive | src/lib.rs:1025-1050 | an event from gossip is skipped if it names the node itself, else stored and held exactly when its id was new |
| Actors.NodeProcess.GossipForward | src/lib.rs:1039-1043 | the held event goes to the end of the channel to the application, or is lost when the send fails |
| Actors.NodeProcess.OutboundReceive | src/lib.rs:1072-1085 | events are broadcast in the order they were queued, each taken once |
| Actors.NodeProcess.StorageTurn | src/lib.rs:355-376 | one undisturbed turn of the storage loop stores and forwards a new event and drops a duplicate |
| Actors.NodeProcess.RunStorage | src/lib.rs:352-381 | the storage loop empties its queue, storing the queue and forwarding exactly the first event of every new id, in order |
| Actors.StoreAllKeepsFirst | src/lib.rs:359-366 | storing a queue keeps old rows, stores every id, and gives a new id the first event that carried it |
| Actors.FirstNewIsFirst | src/lib.rs:363-375 | what is forwarded are exactly the events of the queue that are the first of a new id, each once, in the order of the queue |
| ReplicationSafety.StepConserves | src/lib.rs:358-373 | every step of either actor, failing or not, keeps the conservation of ids |
| ReplicationSafety.AlwaysSafe | src/lib.rs:352-381 | in every reachable state, whatever fails and however steps interleave, the ids of a table are the disjoint union of the initial ones, those handed to the network, those delivered, those lost in a failed send and those in hand |
| ReplicationSafety.ForwardedAtMostOnce | src/lib.rs:1031-1045 | no id is forwarded twice, by the same actor or by both, even when they race between releasing the table and sending |
| ReplicationSafety.RowsStay | src/lib.rs:359-362 | rows are never removed or changed over a run |
| ReplicationSafety.OnlySubmittedEvents | src/lib.rs:1025-1085 | what a node broadcasts its own application submitted; what it stores somebody submitted or was on disk; what it delivers names another node |
| Ordering.AlwaysExtends | src/lib.rs:352-381 | what was submitted, taken, handed on, broadcast, delivered or lost at some point of a run stays in front of everything later |
| Ordering.AlwaysInOrder | src/lib.rs:352-1085 | first in, first out over every run: events are taken in the order of submission, and what a node handed on and what it delivered are the rows its actor inserted, in the order of insertion, without those a failed send lost |
| Convergence.GeneratedIdsAreUnique | src/lib.rs:1099-1102 | ids made by generate_event_id determine events when node ids have one length, timestamps one number of digits, and the hash does not collide on the submitted events |
| Convergence.AlwaysStored | src/lib.rs:352-381 | as long as inserts succeed nothing taken or received is forgotten, whatever sends and broadcasts fail |
| Convergence.AlwaysOnTheirWay | src/lib.rs:358-373 | without failures each row was broadcast, is about to be, or came from gossip |
| Convergence.SettledTables | src/lib.rs:1021-1092 | once drained and delivered, every table holds exactly the events submitted at its node and those broadcast under another name, whichever sends and broadcasts failed |
| Convergence.ConvergesExactlyWhenEventsGetOut | src/lib.rs:1028-1085 | whichever sends and broadcasts failed, all tables are equal if and only if every event naming a node of the mesh was submitted at that node and every event was broadcast with success or submitted everywhere |
| Convergence.ConvergesExactlyWhenSourcesSubmit | src/lib.rs:1028-1050 | without failures all tables are equal if and only if every event naming a node of the mesh was submitted at that node |
| Convergence.ExactlyOnceDelivery | src/lib.rs:1023-1045 | with applications submitting under their own id, every table is the set of submitted events and every event submitted elsewhere is delivered to the application exactly once |
| Settling.CanAlwaysSettle | src/lib.rs:1021-1092 | from every state there is a schedule without failures and submissions that drains all queues and delivers all broadcasts |
| Settling.ForgedSourceDiverges | src/lib.rs:1028 | an event submitted under another node's name leaves two settled tables different |
| Settling.SharedIdDiverges | src/lib.rs:1032-1037 | two events with one id leave two settled tables different |
| Settling.FailedBroadcastDiverges | src/lib.rs:1075-1076 | one failed broadcast leaves two settled tables different |
| Settling.FailedBroadcastIsForGood | src/lib.rs:1072-1076 | after a failed broadcast, whatever the mesh does and even if the event is submitted again at its node, the event stays there and reaches no other node, unless another node submits it itself |
| PeerTracking.PeerTracker.constructor | src/lib.rs:391-396 | a tracker starts over the table on disk with nothing cached |
| PeerTracking.PeerTracker.LoadCache | src/lib.rs:398-419 | on success the lists are duplicate-free and are exactly the online rows, else nothing changes |
| PeerTracking.PeerTracker.UpsertPeer | src/lib.rs:421-463 | the row is inserted or refreshed and the peer listed once; it fails exactly on a failing write, and on a failing existence query when there is a row, which ends in a key conflict; it reports new exactly when there was no row; an error changes nothing |
| PeerTracking.PeerTracker.MarkPeerOffline | src/lib.rs:465-493 | all rows of the peer go offline, it leaves every list, and the groups where it was online are returned; an error changes nothing |
| PeerTracking.PeerTracker.Retain | src/lib.rs:487-489 | removing a peer keeps the others in order |
| PeerTracking.PeerTracker.GetPeers | src/lib.rs:495-498 | the cached list; when cache and table agree, the online rows of the group |
| PeerTracking.PeerTracker.GetActiveGroups | src/lib.rs:500-507 | the groups with a nonempty list; when cache and table agree, the groups with an online row |
| PeerTracking.PeerTracker.PruneStale | src/lib.rs:509-522 | returns the number of rows turned offline; the update stands even when the reload fails |
| PeerTracking.PeerTracker.Stats | src/lib.rs:524-529 | the sum of the list lengths is the number of online rows when cache and table agree |
| TrackerRuns.AgreementLostExactly | src/lib.rs:509-522 | an operation breaks the agreement of cache and table if and only if it is a prune that turned a row offline and failed to reload |
| TrackerRuns.AlwaysCovered | src/lib.rs:398-522 | whatever fails, lists are duplicate-free, cover the online rows and name only peers with a row |
| TrackerRuns.FaultFreeAgrees | src/lib.rs:398-498 | after any run of successful operations every list is duplicate-free and equals the online rows of its group |
| TrackerRuns.UpsertExactly | src/lib.rs:421-463 | exactly when an upsert succeeds; then the peer is online, seen now and listed, first_seen stays, the result tells whether there was no row, and nothing else changes; otherwise nothing changes at all |
| TrackerRuns.KnownPeerRejoins | src/lib.rs:436-493 | a peer that left and announces itself is online and listed again and is not reported as new |
| TrackerRuns.MarkExactly | src/lib.rs:465-493 | a departure fails as a whole, or takes the peer offline in every group, seen now, and off every list, leaving all other rows and the order of the lists |
| TrackerRuns.WithoutInOrder | src/lib.rs:487-489 | taking a peer off a list works entry by entry, in order |
| TrackerRuns.PruneExactly | src/lib.rs:509-522 | for every failing statement which rows a prune turns offline and what the lists are afterwards |
| TrackerRuns.PruneIsExact | src/lib.rs:509-522 | a successful prune restores agreement, turns exactly the stale rows offline, leaves none and touches no other row |
| TrackerRuns.RowsStay | src/lib.rs:421-518 | rows are never removed and keep first_seen |
| TrackerRuns.ReportedNewOnce | src/lib.rs:428-450 | upsert_peer reports a peer as new at most once per group in a run, and only when it had no row |
| TrackerRuns.TimesInOrder | src/lib.rs:421-518 | with a clock that never goes back, first_seen <= last_seen always and last_seen never decreases |
| TrackerRuns.LastSeenIsLastContact | src/lib.rs:421-518 | last_seen is the time of the last successful upsert or recorded departure, found by scanning the run backwards |
| TrackerRuns.AnnouncedPeerSurvivesPrune | src/lib.rs:435-518 | after an upsert a successful prune leaves the peer online exactly within the age limit |
| Discovery.DiscoveryTask.Introduce | src/lib.rs:717-733 | one broadcast for each group listing at least two peers, naming the list |
| Discovery.DiscoveryTask.OnAnnounceTick | src/lib.rs:709-734 | the announce arm introduces all active groups with company and changes no state |
| Discovery.DiscoveryTask.OnPruneTick | src/lib.rs:736-744 | the prune arm prunes rows older than 300 seconds and broadcasts nothing |
| Discovery.DiscoveryTask.OnReceived | src/lib.rs:746-940 | only a well-formed groups_exchange has an effect: upserts in order, then the collected introductions |
| Discovery.DiscoveryTask.JoinGroup | src/lib.rs:783-921 | one group of an exchange: subscribe if there is no topic yet, upsert, and set the new list aside exactly when the upsert succeeded and it names at least two peers |
| Discovery.DiscoveryTask.Join | src/lib.rs:783-923 | the loop over the groups of an exchange |
| Discovery.DiscoveryTask.BroadcastAll | src/lib.rs:925-938 | the collected lists go out after the last upsert, in order |
| Discovery.DiscoveryTask.OnNeighborDown | src/lib.rs:946-970 | the departure arm marks the peer offline and introduces the affected groups that still have company |
| DiscoveryRuns.ListsAreCurrent | src/lib.rs:903-938 | a list collected early in an exchange is still its group's list when it is broadcast |
| DiscoveryRuns.IntroductionsAreSound | src/lib.rs:707-978 | over every run each introduction lists at least two distinct peers and every online peer of its group at that moment, and exactly those while no reload has failed |
| DiscoveryRuns.AnnounceIsComplete | src/lib.rs:716-733 | an announce tick introduces exactly the groups with two or more online peers, once each |
| Exchanges.JoinExactly | src/lib.rs:783-921 | what joining the groups of an exchange leaves, any statement failing: the rows, times and lists of the peer in the groups it joined, and everything else as it was |
| Exchanges.ExchangeIntroduces | src/lib.rs:903-938 | an exchange introduces exactly the groups the peer joined that list at least two peers afterwards, once for each time they are named, in that order |
| Exchanges.ExchangeJoins | src/lib.rs:783-884 | the state an exchange leaves, and which topics are subscribed to |
| Exchanges.ExchangesAreComplete | src/lib.rs:746-940 | over runs in which no reload failed, an exchange introduces a group if and only if the peer joined it and two or more peers are then online in it |
| Exchanges.TwoPeersMeet | src/lib.rs:903-938 | a peer that announces a group in which one other is listed is introduced together with it |
| Exchanges.DepartureIntroduces | src/lib.rs:946-970 | a recorded departure introduces exactly the groups the peer was online in that still list two or more peers, each once; one that fails changes and introduces nothing |
| Exchanges.PruneTickExactly | src/lib.rs:736-744 | a prune tick turns exactly the rows offline that were not seen for 300 seconds, and introduces nobody |
| DiscoveryRuns.DepartedNotIntroduced | src/lib.rs:946-970 | after a recorded NeighborDown no introduction names the peer until it announces groups again, whatever fails in between |
| DiscoveryRuns.OneForwarderPerGroup | src/lib.rs:787-884 | no group topic is ever subscribed to twice |
| Snapshot.SnapshotProvider.UpdateFromEvent | src/snapshot.rs:134-213 | the snapshots stay what the events applied so far fold into |
| Snapshot.SnapshotProvider.GetSnapshot | src/snapshot.rs:216-219 | there is a snapshot exactly when an event of the group was applied, and it is what the events applied so far fold into |
| Snapshot.SnapshotProvider.HandleRequest | src/snapshot.rs:222-241 | availability is announced exactly when there is a snapshot, with the item count modulo 2^32 |
| Snapshot.SnapshotProvider.ServeSnapshot | src/snapshot.rs:251-263 | length and encoding of the snapshot are written, or nothing when there is none |
| SnapshotWire.MessageRoundTripExactly | src/snapshot.rs:29-47 | a request or announcement is received as it was sent if and only if its numbers fit their widths |
| MessageTexts.RequestText | src/snapshot.rs:29-37 | the text of a snapshot request, written out |
| MessageTexts.AvailableText | src/snapshot.rs:39-46 | the text of a snapshot announcement, written out |
| Snapshot.SnapshotRequester.DownloadSnapshot | src/snapshot.rs:326-369 | a whole, decodable frame is returned and moves the sync clock; which error is reported otherwise, and that it leaves the clock |
| Snapshot.SnapshotRequester.MarkSynced | src/snapshot.rs:372-375 | from the marked time on the group needs a snapshot exactly when more than six hours have passed; what other groups need does not change |
| Snapshot.SnapshotRequester.NeedsSnapshot | src/snapshot.rs:300-314 | a group never synced, or synced more than six hours ago, needs a snapshot |
| SnapshotFold.FoldIsPerGroup | src/snapshot.rs:134-213 | after any stream the snapshot of a group is read off its own events: first occurrences by id, the last hundred chats, the last group data, the last time |
| SnapshotContents.ListsExactly | src/snapshot.rs:166-198 | each list has one entry for every id the group's updates created, in order of arrival, with the data of the first update that created it, field by field; a board is freeform and has time 0 when none is given |
| SnapshotContents.ListedExactly | src/snapshot.rs:166-198 | an id is listed if and only if some update of the group created it |
| SnapshotContents.BoardExactly | src/snapshot.rs:172-191 | the board the first board event of an id leaves, spelled out |
| SnapshotContents.GroupDataExactly | src/snapshot.rs:138-165 | the group data shown is that of the latest GroupCreated, before one the id with empty name, icon and colour and time 0 |
| SnapshotContents.ChatsExactly | src/snapshot.rs:199-207 | the window holds the last hundred chats of the group |
| SnapshotContents.TimeExactly | src/snapshot.rs:212 | the time is that of the last update of the group |
| SnapshotFold.OrderInsensitive | src/snapshot.rs:166-198 | streams with the same events in any order and multiplicity give the same sets of workspaces, boards and files |
| SnapshotFold.ReplayTolerant | src/snapshot.rs:166-198 | applying events again leaves the three lists exactly as they were |
| SnapshotFold.ReplayedChatExactly | src/snapshot.rs:199-207 | a replayed chat changes the window of its group unless the window is full and holds nothing else |
| SnapshotFold.LatestTimeExactly | src/snapshot.rs:45 | the advertised time is that of the most recent item if and only if the last event carries an item and no earlier item is newer, or it carries none and has the time of the newest item |
| SnapshotFold.NewestItemIsNewest | src/snapshot.rs:45 | what the most recent item is: the newest time among the events that carried one |
| SnapshotFold.LateItemSetsTimeBack | src/snapshot.rs:212 | an old item applied late sets the advertised time back |
| SnapshotFold.UnreadableEventMovesTime | src/snapshot.rs:164-212 | an event that carries no item moves the advertised time even when all times are in order |
| SnapshotFold.FrameRead | src/snapshot.rs:257-263 | what a reader gets from a frame of any length followed by anything |
| SnapshotFold.FrameRoundTripExactly | src/snapshot.rs:338-352 | a frame gives back its payload and leaves the rest of the stream if and only if the payload is shorter than 2^32 bytes |
| SnapshotFold.LengthBytes | src/snapshot.rs:257-259 | the length stands in front as four bytes, the most significant first |
| SnapshotFold.TruncatedFrame | src/snapshot.rs:345-352 | a frame that is cut off anywhere is not read |
| SnapshotFold.RequestRoundTrip | tests/substrate_snapshot.rs:39-47 | a request reaches the provider as the group it is for |
| SnapshotFold.TransferAndFreshness | src/snapshot.rs:300-358 | a download yields the provider's snapshot, and a new one is needed exactly when the newest event is more than six hours old |
| SnapshotFold.FreshnessExactly | src/snapshot.rs:307-311 | the freshness check answers whether more than six hours have passed if and only if the last sync is not in the future, or overflow goes unchecked and the clock is at least 2^64 - 21600 behind; what it does otherwise |
| Swarm.MessageRoundTrip | src/swarm.rs:63-77 | a negotiation message is received as it was sent |
| MessageTexts.SwarmText | src/swarm.rs:63-77 | the text of a negotiation message, written out |
| Swarm.BlobSwarm.constructor | src/swarm.rs:99-113 | a swarm starts with an empty store and registry |
| Swarm.BlobSwarm.RecordHolder | src/swarm.rs:169-178 | the holder joins the set of its hash; a node never lists itself |
| Swarm.BlobSwarm.OnMessage | src/swarm.rs:195-216 | an IHave is recorded, a WhoHas for a held blob is answered, anything malformed is an error; only an IHave changes state |
| Swarm.BlobSwarm.TryHolder | src/swarm.rs:252-278 | one dial: only chunks of the blob are added, nothing is lost |
| Swarm.BlobSwarm.TryHolders | src/swarm.rs:245-279 | the loop dials holders in order, stopping when the blob is complete or the store does not answer |
| Swarm.BlobSwarm.Fetch | src/swarm.rs:232-296 | present chunks never shrink; returned bytes are put together from the chunks present and hash to the request, whatever the store answers; else the last failure is reported; an empty list or an invalid id fails before any dial |
| Swarm.CompleteExactly | src/swarm.rs:245-279 | trying the holders completes the blob if and only if what was present and what the answering holders offer covers it, in any order |
| Swarm.AssembledWhole | src/swarm.rs:142-148 | the chunks of a complete blob are its content |
| Swarm.ContentInOrder | src/swarm.rs:142-148 | the content of a blob is its chunks one after the other |
| Swarm.FetchSucceedsExactly | src/swarm.rs:232-296 | while ids parse and the store answers, a fetch returns the content if and only if the chunks present and those offered by the answering holders cover the blob |
| Swarm.OneGoodHolderSuffices | src/swarm.rs:220-229 | one answering holder with the missing chunks makes the fetch return the content, whatever the holders before and after it do |
| Swarm.LastFailureExactly | src/swarm.rs:252-278 | the error kept is that of the last holder that refused, timed out or broke off, and names it |
| Swarm.FetchFailsExactly | src/swarm.rs:232-296 | for every input which error a fetch reports, in the order of precedence |
| Swarm.TriedExactlyUntilComplete | src/swarm.rs:247-251 | no holder is dialled once the blob is complete or the store does not answer, and none is skipped before |
| SwarmProtocol.AlwaysSound | src/swarm.rs:151-216 | in every reachable state announcements in flight are true and every registry is exactly what was heard |
| SwarmProtocol.HoldersAreReal | src/swarm.rs:169-187 | the known holders of a blob are exactly the other nodes whose announcements of it were processed, and each really holds it |
| SwarmProtocol.OnlyGrows | src/swarm.rs:173-177 | stores and registries only grow |
| SwarmProtocol.NegotiationCompletes | src/swarm.rs:195-215 | after query and answer are delivered the asking node knows the holder |
| SwarmProtocol.AnnouncementArrives | src/swarm.rs:151-178 | a node that obtained a blob may announce it, and whoever processes the announcement knows it as a holder |
| SwarmProtocol.KnownHolderMakesFetchSucceed | src/swarm.rs:181-296 | if a holder known from negotiation delivers the chunks in its store, a fetch from the known holders returns the content |
| Json.U64RoundTrip | src/rendezvous.rs:46 | a number is read back as itself exactly when it is a u64 |
| Json.AsU64Exactly | src/rendezvous.rs:46 | nothing but the plain decimal form of a u64 is read as one |
| Json.AsStringsExactly | src/rendezvous.rs:25-31 | exactly the lists of strings are read as such |
| Json.MemberExactly | src/rendezvous.rs:25-47 | a member is found by its name when that occurs once; a repeated one is an error |
| WireText.WrittenString | src/rendezvous.rs:67-69 | the exact text of a string: which characters are escaped, and how |
| WireText.PartText | src/rendezvous.rs:67-141 | the exact text of objects, lists, strings and numbers in compact and in pretty style |
| JsonReading.SpaceExactly | src/rendezvous.rs:138-141 | between tokens exactly the four whitespace characters of RFC 8259 section 2 are skipped, other control characters refused |
| JsonReading.UnicodeEscapes | src/rendezvous.rs:138-141 | every character may be spelled by its number, above U+FFFF by a pair of surrogates |
| JsonReading.LoneSurrogateRefused | src/rendezvous.rs:138-141 | half a pair of surrogates is refused |
| JsonReading.ReadNumberOnly | src/rendezvous.rs:138-141 | only numbers of the grammar of RFC 8259 section 6 are read |
| JsonRoundTrip.ReadWrittenString | src/rendezvous.rs:67-69 | every string, with any characters, is read back from its escaped form |
| JsonRoundTrip.ParseOfPrint | src/rendezvous.rs:138-141 | every JSON value is read back from its compact and from its pretty text |
| JsonRoundTrip.ParseExactly | src/rendezvous.rs:138-141 | a text is read as a value if and only if its tokens are those of the value: nothing else is accepted, nothing may follow |
| Utf8.DecodeOfEncode | src/rendezvous.rs:67-69 | UTF-8 bytes determine the text |
| Utf8.EncodeCharExactly | src/rendezvous.rs:67-69 | how many bytes a character takes in UTF-8, and how they spell its number (section 3 of RFC 3629) |
| Utf8.EncodeConcat | src/rendezvous.rs:67-69 | a text is encoded character by character |
| Hex.DecodesExactlyDigits | src/rendezvous.rs:92-93 | exactly texts of evenly many hexadecimal digits are read |
| Hex.DecodeOfEncode | src/rendezvous.rs:81-95 | hexadecimal text determines the bytes |
| Hex.EncodedDigits | src/rendezvous.rs:81-85 | a byte is written as two lower-case digits, the high one first |
| Rendezvous.ConfigRoundTrip | src/rendezvous.rs:25-47 | the derived reader gives back the config the derived writer wrote |
| Rendezvous.ReadByName | src/rendezvous.rs:25-47 | a config is read by the names of its members, in any order and among any others; a missing relay is none |
| MessageTexts.SignedBytesExactly | src/rendezvous.rs:63-69 | the signing bytes written out: members in the order of declaration, no space between tokens |
| MessageTexts.SigningTextBegins | src/rendezvous.rs:63-69 | how the signing text begins, character for character |
| MessageTexts.PublishedBytesExactly | src/rendezvous.rs:138-141 | the published file written out: one member to a line, indented by two for every level |
| MessageTexts.PublishedTextBegins | src/rendezvous.rs:138-141 | how the published text begins, character for character |
| Rendezvous.CanonicalRoundTrip | src/rendezvous.rs:67-69 | the signing bytes are read back as the config |
| Rendezvous.CanonicalInjective | src/rendezvous.rs:63-69 | two configs have the same signing bytes if and only if they are equal |
| Rendezvous.PublishedRoundTrip | src/rendezvous.rs:138-141 | the published file is read back as the signed config |
| Rendezvous.VerifyAcceptsExactly | src/rendezvous.rs:89-101 | verification accepts exactly a readable signer, 64 bytes of hexadecimal signature, and a signature valid for the signing bytes |
| Rendezvous.VerifyFailsExactly | src/rendezvous.rs:89-101 | why a config is refused, in the order of the checks |
| Rendezvous.SignPublishReadVerify | src/rendezvous.rs:72-141 | a signed config verifies after publishing and reading it back, and carries the signer's key |
| Rendezvous.VerifiesExactlyWhatWasSigned | src/rendezvous.rs:89-101 | a signature is accepted for the signed config under the signer's key and rejected for another config or key, if and only if the scheme admits no forgery there |
| Events.IdDeterminesEvent | src/lib.rs:1099-1102 | events with one id are equal if and only if their sources have the same length and their timestamps the same number of digits, where the hash does not collide |
| Events.IdText | src/lib.rs:1099-1102 | the id is the hash of payload, source and decimal time, in this order, with nothing between |
| Events.IdCollision | src/lib.rs:1099-1102 | two different events of one node with the same id, and two of nodes with names of different length |
| Events.EventRoundTrip | src/lib.rs:1026-1073 | a broadcast event arrives as it was sent |
| MessageTexts.EventText | src/lib.rs:42-48 | the text of a broadcast event, written out |
| Events.IntroductionRoundTrip | src/lib.rs:553-573 | an introduction is read back as its group and peers, and is not taken for an exchange |
| MessageTexts.IntroductionText | src/lib.rs:553-573 | the text of an introduction, written out |
| Events.ExchangeRead | src/lib.rs:749-784 | a groups_exchange is understood as its peer and its groups, in order |
| Events.OnlyStringsInOrder | src/lib.rs:783-784 | group entries that are not strings are skipped, the others kept in order |
| Decimal.ValueOfPrint | src/lib.rs:1100 | a printed number is read back as itself |
| Scope.ScopeTracker.constructor | src/bin/xaeroflux_bootstrap.rs:251-256 | an empty tracker indexes the empty history |
| Scope.ScopeTracker.Convert | src/bin/xaeroflux_bootstrap.rs:312-590 | the maps keep answering like a scan of the history, and the scope given to the event is the one the scan finds |
| Scope.ScopeTracker.Receive | src/bin/xaeroflux_bootstrap.rs:875-907 | one turn of the receive loop gives the event the scope of the history, and panics exactly when an id it prints is cut inside a character |
| Scope.ScopeTracker.ConvertAll | src/bin/xaeroflux_bootstrap.rs:875-912 | every event of a stream gets the scope that the events up to it determine, until the first turn that panics ends the loop |
| Utf8.CutExactly | src/bin/xaeroflux_bootstrap.rs:892 | the printed prefix of an id is its first bytes; the cut panics if and only if it falls inside a character |
| Scope.LatestGroupIsLatest | src/bin/xaeroflux_bootstrap.rs:258-270 | the scan finds the last creation of a workspace |
| Scope.LatestWorkspaceIsLatest | src/bin/xaeroflux_bootstrap.rs:263-277 | the scan finds the last creation of a board |
| Scope.InWorkspace | src/bin/xaeroflux_bootstrap.rs:385-450 | chats and boards belong to the group in which their workspace was last created, or to that of their topic |
| Scope.OnBoard | src/bin/xaeroflux_bootstrap.rs:493-566 | elements of a board belong to the workspace and group in which it was last created, or to the group "unknown"; a notebook cell only if it has text |
| Scope.SaysItself | src/bin/xaeroflux_bootstrap.rs:321-492 | groups, workspaces and files say themselves where they belong, a file with the topic as fallback |
| Scope.TopicGroup | src/bin/xaeroflux_bootstrap.rs:878-882 | the group of a topic is what follows "group/", or the whole topic |
| Scope.TimeExactly | src/bin/xaeroflux_bootstrap.rs:321-566 | times are forwarded as they are, negative ones 2^64 later; renames and cells get the time of the conversion |
| Scope.UnknownBoardExactly | src/bin/xaeroflux_bootstrap.rs:272-284 | when a board nobody created is filed under ("unknown", "unknown") |
| Scope.UnknownBoardMisfiled | src/bin/xaeroflux_bootstrap.rs:272-284 | a board nobody created filed under a real group |

## Left out

- Endpoint, relay, discovery service and router set-up, key files, the builder, the command line program and the heartbeat print: calls into other systems without logic of their own.
- Payloads relayed from group topics (src/lib.rs:824-884): they reach the application without passing the table and its deduplication, so the exactly-once statements are about the events topic only.
- Discovery.DiscoveryTask.OnReceived: the ids cut to 16 bytes for log lines (src/lib.rs:763-931), because whether they are computed depends on the log level; where they are, an id with a character across byte 16 ends the task (`Utf8.CutExactly` says which).
- Restarts: a node starts over any table, but a crash in the middle of a run is not a step.
- The presence announcement of a node id on the discovery topic (src/lib.rs:710-714): it carries no state.
- SQL text, write-ahead logging and indices.
- JSON of snapshots and of the payloads that update them: the encoding of a snapshot is a function with an inverse, and an event payload arrives parsed, with one case for everything that does not parse.
- In reading JSON, the recursion limit of the reader and the positional array form that derived structs also accept.
- `should_request_snapshot` (src/snapshot.rs:383-410): a threshold comparison.
- Content text, author and title fields of converted events, random ids of converted events, and the message broker connection they are sent to.
- Liveness under a particular scheduler: it is proved that a settled state can be reached from every state, not that a given scheduler reaches it.
