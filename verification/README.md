# A Dafny model of the offline-first sync system

The repository is an offline-first sync system for AS2 documents and the codecs under it. This project
models its behaviour in Dafny and proves what the parts promise together. `dafny verify dfyconfig.toml`
checks everything.

Strings are sequences of UTF-16 code units compared as JavaScript compares them (`texts.dfy`); numbers that
the code prints or parses go through `radix.dfy`. On these stand four groups of modules.

**Sync core.** A record per document id and an index `(collection, ts, id)` are kept over flat string keys
(`cursor`, `store_keys`, `memory_adapter`, `store`, `ap_store`). The representation invariant says that the
adapter holds exactly the documents and their index entries; `store_laws` derives what callers see over whole
histories. A server that replays what a peer missed (`resume`, `bridge`) and a client with saved cursors, an
outbox and a transport that may fail at any send (`replica`, `client`, `outbox`) run the reconnect protocol.
`sync`, `sync_protocol` and `sync_runs` make the two sides and the channel one state machine, in which documents are
put to any number of collections, moved and deleted, and prove lossless reconnect over every run whose puts get
increasing cursors and stay out of the handshake. `sync_losses` and `sync_races` drop these two hypotheses and say
exactly what is lost then. `sync_replays` says, for any server, what a reconnect makes of each document and where it
files one of several collections; `sync_deletes` says what stays behind on the clients. The class methods are proved
against the same functions the machine is made of, so `ApClient.HandleFrame` is the machine's delivery step,
`RealtimeBridge.OnChange` its broadcast and `ReplayResume` its answer; `handshake` says what any control frames leave
at the bridge, and that the client's own are the machine's attach, ask and answer.

**Codecs.** Base58 and multikeys, sortable base-32 ids, RFC 8785 canonical JSON with a reader that undoes the
printer and its text spelled out (`json_texts`), SSE framing with an incremental parser, and HTTP Signature headers:
round trips and their limits, what is sent and signed, and what verifying guarantees (`http_signature_meaning`).

**Delivery.** One attempt (`delivery`), the durable retry queue on top of the store (`queue`), and its ledger
over whole histories (`queue_runs`).

**Time and concurrency.** `watch`'s generation counter under any order of reads (`watch`) and the TTL
deduplication window (`volatile_adapter`).

Calls into code outside the model are parameters: clocks and random bytes are arguments, crypto, hashing,
base64 and URL parsing are function values with the facts needed of them as hypotheses, the network's answers
to a delivery attempt are data, and a transport may fail whenever it is used. Each operation of the store, the
queue and the client is one atomic step.

## What the proofs show about the code

- A put with collections but a timestamp that no cursor can hold (negative, or 10^15 and up) throws after the
  record is written: the document can be read, is in no listing, and every later put of its id throws
  (`OutOfRangePut`). So the store holds the latest put of an id exactly when no such put of it came before
  without a delete in between (`LatestPutHeld`, `BlockedIsUnlisted`).
- A live frame between subscribing and replaying moves the saved cursor ahead of what the client holds. The
  client stays safe exactly when it had missed nothing (`HandshakeRace`). If it has not read its cursors yet,
  what it had missed stays lost over every further run with puts in turn, until it is put again or leaves
  (`RaceWhileAttached`). If it has, the pending answer makes the loss good: an entry of one subscribed
  collection is lost exactly when the connection drops before the answer's first frame for that collection is
  delivered (`RaceWhileAsked`, `RaceMadeGood`).
- Puts whose cursors come out of order, as two in one millisecond with descending ids do, are never lost on a
  link that stays up (`LiveLinkConverges`). Outside the handshake one is lost exactly when the link is down, or
  drops before its frame is delivered, while the saved cursor is past it and the client does not hold that very
  document (`StalePutOutcome`), and then for good (`LostForGood`).
- A delete never reaches a client that has the document: its frame has no document, which the client's put rejects,
  and no replay mentions it. The same holds when the document is moved out of all collections the client
  subscribes to. So a client that has received everything, then a delete, and reconnects does not agree with the
  server, for every document of one subscribed collection (`DeleteStays`). After a document has left, a reconnect
  brings agreement exactly when the client had not got it by then (`DeletedOutcome`; `LeaveOutcome` also counts what
  left earlier), and after any run exactly when each document that left and that the client still files there came
  back or is sent for another collection (`SafeReconnect`). Otherwise the two sides disagree over every further run
  until it is put again (`DeletesNeverArrive`).
- The content of a document in several subscribed collections is kept (`LosslessReconnect`), but a replay files it under the
  last of the subscriptions that sends it, and there alone (`ReconnectOutcome`). So after a reconnect both
  sides agree on all its collections exactly when they did before and nothing of it was sent (`OverlapOutcome`).
- A put of a document without collections whose timestamp no cursor can hold is stored and then throws out of the
  broadcast, because the bus is synchronous (`RealtimeBridge.OnData`).
- The base58 round trip fails exactly on one or more zero bytes and nothing else, and on strings of `1`s only;
  both come back one longer (`DecodeEncode`, `EncodeDecode`).
- The comment in `id.js` calls local ids sortable by creation time. They are, for any random bytes, exactly as
  long as the times do not wrap at 2^48 (`LocalIdsSortByTime`).
- The quick key-id extractor returns the signer's key id exactly when it contains no quote (`KeyIdExtracted`);
  a signed request verifies exactly when at least one named header was signed and a digest the caller supplied
  is the body's (`SignVerifyRoundTrip`); with a name that has a space, or a signed `signature` header that is not
  the one sent, it does not (`SignVerifyExact`).
- Two index keys of different entries meet exactly when one collection id contains the delimiter and goes on
  with the start of the other entry's cursor (`IndexKeysMeet`, `DelimiterCollision`).

## Model

| member | source | states |
|---|---|---|
| Cursor.EncodeCursorIs | packages/core/src/adapters/cursor.js:10-27 | encoding succeeds exactly for a non-empty id and a timestamp in [0, 10^15), and then gives 15 padded digits, a separator and the id |
| Cursor.CursorOrder | packages/core/src/adapters/cursor.js:22-46 | encoded cursors sort as strings exactly as their entries sort by (ts, id) |
| Cursor.CursorInjective | packages/core/src/adapters/cursor.js:22-27 | equal cursors mean equal timestamp and id |
| StoreKeys.PrefixSelects | packages/ap-store/src/store.js:41-47 | a collection's prefix selects its own index keys and no others, also when one collection id is a prefix of another, and never an object key |
| StoreKeys.IndexKeyInjective | packages/ap-store/src/store.js:41-47 | an index key determines its collection and its entry |
| StoreKeys.IndexKeyOrder | packages/ap-store/src/store.js:41-47 | within a collection, key order is (ts, id) order |
| StoreKeys.NamespacesDisjoint | packages/ap-store/src/store.js:37-47 | object keys and index keys never meet |
| StoreKeys.IndexKeysMeet | packages/ap-store/src/store.js:29-47 | for any collection ids, two index keys are equal if and only if collection and entry are, or one collection id goes on past the delimiter with the start of the other's cursor and that entry's id with the rest of the key |
| StoreKeys.DelimiterCollision | packages/ap-store/src/store.js:29-47 | such a collision exists, between a collection id with the delimiter and one without |
| MemoryAdapter.SortKeys | packages/core/src/adapters/memory-adapter.js:31 | sorting gives the one strictly ascending sequence of exactly these keys |
| MemoryAdapter.MemoryStoreAdapter.List | packages/core/src/adapters/memory-adapter.js:30-35 | the entries under a prefix in ascending or descending key order, cut at the limit |
| MemoryAdapter.MemoryStoreAdapter.Put | packages/core/src/adapters/memory-adapter.js:10-12 | sets one key and keeps the others |
| MemoryAdapter.MemoryStoreAdapter.Get | packages/core/src/adapters/memory-adapter.js:14-16 | the value of the key, or nothing |
| MemoryAdapter.MemoryStoreAdapter.Delete | packages/core/src/adapters/memory-adapter.js:18-20 | removes one key and keeps the others |
| StoreModel.PutRepresents | packages/ap-store/src/store.js:116-125 | deleting the old index entries, writing the record and inserting the new entries keeps the adapter an exact image of the records: nothing stale, missing or dangling |
| StoreModel.DeleteRepresents | packages/ap-store/src/store.js:137-143 | so does deleting a record and its index entries |
| StoreModel.RangeIsListing | packages/ap-store/src/store.js:158-163 | listing the flat keys by a collection's prefix is the collection's members in (ts, id) order |
| ApStoreModel.ApStore.constructor | packages/ap-store/src/store.js:62-68 | an empty store with a 30 s deduplication window |
| ApStoreModel.ApStore.Put | packages/ap-store/src/store.js:81-128 | the whole effect of a persistent put on records, index and events, including both exceptions |
| ApStoreModel.ApStore.RemoveIndexEntries | packages/ap-store/src/store.js:117-121 | all old index entries go, or the call throws before any does |
| ApStoreModel.ApStore.AddIndexEntries | packages/ap-store/src/store.js:123-125 | all new index entries are added, or the call throws before any is |
| ApStoreModel.ApStore.Get | packages/ap-store/src/store.js:131-134 | the document of the latest put, or nothing |
| ApStoreModel.ApStore.Delete | packages/ap-store/src/store.js:137-150 | the record and its entries are gone, one event is emitted unless a timestamp is out of range |
| ApStoreModel.ApStore.GetChildren | packages/ap-store/src/store.js:158-170 | the flat listing agrees with the map of records: the newest members, at most limit |
| ApStoreModel.ApStore.GetChildrenSince | packages/ap-store/src/store.js:185-198 | the members strictly after the cursor, oldest first, at most limit, each with its own cursor |
| ApStoreModel.ApStore.Resolve | packages/ap-store/src/store.js:164-168 | reading back index entries finds every document, in order |
| ApStoreModel.ApStore.PutEphemeral | packages/ap-store/src/store.js:89-96 | never stored; announced unless the window still holds the id; always slides the window |
| StoreLaws.RunHolds | packages/ap-store/src/store.js:111-150 | after any history of puts and deletes the store holds for each id exactly the put that was not refused and has not been deleted since, and an id is blocked exactly when a half-way put of it has not been deleted |
| StoreLaws.LatestPutHeld | packages/ap-store/src/store.js:116-126 | the latest put of an id is the one held if and only if no half-way put of it came before without a delete in between, or left that very record |
| StoreLaws.BlockedIsUnlisted | packages/ap-store/src/store.js:116-126 | after any history a blocked id is held and in no listing |
| StoreLaws.RunKeepsLatest | packages/ap-store/src/store.js:111-150 | without half-way puts the store holds for each id exactly its latest put, if no delete came later |
| StoreLaws.GetChildrenMeaning | packages/ap-store/src/store.js:158-170 | after any history a listing has, newest first and each once, the ids whose held put named the collection under a timestamp in range; anything cut off is older than everything listed |
| StoreLaws.OutOfRangePut | packages/ap-store/src/store.js:116-126 | an out-of-range timestamp leaves a readable, unlisted record that blocks every later put of its id |
| StoreLaws.AfterResumed | packages/ap-store/src/store.js:185-198 | resuming from the cursor of any returned member gives exactly the members behind it |
| StoreLaws.PagesCoverListing | packages/ap-store/src/store.js:185-198 | following cursors page by page, with any limits, ends and makes up the full ascending listing, each member once |
| StoreLaws.PagesReverseNewest | packages/ap-store/src/store.js:158-198 | those pages are the reverse of unlimited getChildren |
| Frames.LiveCursorMatchesIndex | packages/ap-realtime/src/frame.js:54-60 | a live frame carries the cursor its entry has in the index, and building it throws exactly for timestamps out of range |
| ResumeModel.ReplayResume | packages/ap-realtime/src/resume.js:20-47 | the frames sent and the cursors returned, collection by collection, closed by one resumed frame |
| ResumeModel.SendEntries | packages/ap-realtime/src/resume.js:27-40 | one frame per entry, and the cursor of the last one |
| ResumeModel.ReplayIsExact | packages/ap-realtime/src/resume.js:20-47 | per collection exactly the entries strictly after since, ascending; the returned cursor is the greatest of theirs, or since |
| ResumeModel.SecondResumeIsSilent | packages/ap-realtime/src/resume.js:20-47 | resuming from the returned cursors sends no data frame and returns the same cursors |
| BridgeModel.RealtimeBridge.OnConnection | packages/relay/src/realtime-bridge.js:57-59 | a new peer is anonymous and subscribed to nothing |
| BridgeModel.RealtimeBridge.OnClose | packages/relay/src/realtime-bridge.js:107 | a closed peer is forgotten |
| BridgeModel.RealtimeBridge.OnControl | packages/relay/src/realtime-bridge.js:62-93 | a hello from an unregistered actor closes the connection; a resume of a greeted peer is answered by the replay of that peer's subscriptions; every other state is the next one of the history that `ActorIs`, `SubscriptionsAre` and `SubscriptionOrder` describe |
| BridgeModel.RealtimeBridge.OnData | packages/relay/src/realtime-bridge.js:95-117 | a published document is stored, and broadcast to every peer concerned, only if there is one and every collection named starts with the id of the sender's actor; the call throws exactly when the put does or building the frame does, and then nothing is sent |
| BridgeModel.RealtimeBridge.OnChange | packages/relay/src/realtime-bridge.js:110-117 | exactly the peers with a subscription to one of the collections get the frame, each once; when building it throws, so does the listener, and nobody does |
| BridgeModel.BridgeIsServer | packages/relay/src/realtime-bridge.js:83-117 | to a connected, greeted peer the bridge sends what the put, delete and answer steps of the state machine put on the channel |
| Handshakes.ActorIs | packages/relay/src/realtime-bridge.js:63-71 | after any control frames a peer speaks for an actor if and only if the last hello from a registered actor was that actor's |
| Handshakes.SubscriptionsAre | packages/relay/src/realtime-bridge.js:63-82 | after any control frames a collection is among the peer's subscriptions if and only if a subscribe to it came after a hello from a registered actor and no unsubscribe from it came later |
| Handshakes.SubscriptionOrder | packages/relay/src/realtime-bridge.js:75-90 | the subscriptions are kept each once, in the order in which they were entered, which is the order of a replay |
| Handshakes.HandshakePeer | packages/ap-client/src/client.js:61-68 | a new peer that gets the client's handshake of a registered actor ends with exactly that actor and those subscriptions in that order, already before the resume |
| Handshakes.HandshakeAttaches | packages/relay/src/realtime-bridge.js:62-91 | the handshake is the attach, ask and answer of the state machine: the peer is sent the replay from the client's own cursors |
| ClientModel.ApClient.constructor | packages/ap-client/src/client.js:44-58 | a client over a store whose outbox collection is sound, offline and without subscriptions |
| ClientModel.ApClient.OnTransportClose | packages/ap-client/src/client.js:55-57 | a closed transport makes the client offline and changes nothing else |
| ClientModel.ApClient.Subscribe | packages/ap-client/src/client.js:182-188 | each collection once, in order; a subscribe frame only for a new one while connected |
| ClientModel.ApClient.ReadCursors | packages/ap-client/src/client.js:197-203 | the cursors a resume asks from are those of the client's replica |
| ClientModel.ApClient.SetCursor | packages/ap-client/src/client.js:262-264 | moves one saved cursor; documents and outbox stay as they were |
| ClientModel.ApClient.HandleFrame | packages/ap-client/src/client.js:205-227 | the effect of a frame on replica and cursors is the delivery step of the state machine, and the outbox is untouched |
| ClientModel.ApClient.FlushOutbox | packages/ap-client/src/client.js:237-255 | oldest first, a prefix of the outbox is sent and deleted; it stops early only when the transport has failed |
| ClientModel.ApClient.HandOverEntry | packages/ap-client/src/client.js:241-253 | an entry is deleted exactly when its frame was handed to the transport |
| ClientModel.ApClient.Publish | packages/ap-client/src/client.js:141-158 | the document and its outbox entry are stored before anything is sent; an offline client sends nothing, a connected one flushes until the outbox is empty or the transport fails |
| ClientModel.ApClient.Connect | packages/ap-client/src/client.js:61-70 | hello, subscriptions, resume from the saved cursors, then the flush until the outbox is empty or the transport fails, in this order; a failed handshake leaves the outbox whole |
| Replicas.HandleAllConcat | packages/ap-client/src/client.js:205-227 | a client's state depends on the frames delivered, not on how they are batched |
| SyncReplays.HandleMeaning | packages/ap-client/src/client.js:205-227 | a data frame files its document as tagged and moves the cursors of the tagged, subscribed collections to its cursor, if that is not empty; a resumed frame sets the cursors it has; any other frame, or one without a document or id, changes nothing |
| SyncSafety.DeliverEntry | packages/ap-client/src/client.js:215-226 | delivering an entry whose predecessors are all present moves the cursor onto it without passing anything missing |
| SyncSafety.DrainTail | packages/ap-client/src/client.js:215-226 | delivering the tail of a listing keeps the client safe after every frame and ends synced |
| SyncSafety.SinceIsTail | packages/ap-realtime/src/resume.js:24-25 | what a resume from a safe client's cursor sends is a tail of the listing, and the client has everything before it |
| SyncProtocol.ReplayIsSafe | packages/ap-realtime/src/resume.js:20-47 | a replay from the client's own cursors, frame by frame and with its closing frame, is safe and leaves every subscription synced |
| SyncProtocol.PutKeepsSafeAlong | packages/ap-store/src/store.js:116-126 | a server put whose cursor is past all given out for its collections keeps a client safe now and after every frame still under way |
| SyncProtocol.BroadcastDelivered | packages/relay/src/realtime-bridge.js:110-117 | a synced client is synced again after any put, to any collections and at any cursor, once the broadcast, if it concerns the client, is delivered |
| SyncProtocol.ElsewhereKeepsSafeAlong | packages/ap-store/src/store.js:137-150 | whatever else the server does, taking documents out of the subscribed collections included, keeps a client safe along all frames under way |
| SyncRuns.RunRecorded | packages/relay/src/realtime-bridge.js:83-117 | in every run, in whatever order puts come, each cursor listed, saved, asked from or under way was given out by the server, and each document the client files in a subscribed collection is or was in one |
| SyncRuns.StepInv | packages/ap-client/src/client.js:61-70 | every put in turn and outside the handshake, delete, change elsewhere, attach, ask, answer, delivery and drop keeps the protocol invariant |
| SyncRuns.LosslessReconnect | packages/ap-client/src/client.js:197-227 | after every run with puts in turn and outside the handshake, to any collections, moves and deletes included, the client has the current document of each server entry at or below its saved cursor, filed as on the server if it is in one subscribed collection; whenever the live channel has drained it has every document of the subscribed collections, and beyond these, documents of several collections aside, only such as the run took out of them |
| SyncRuns.ReconnectHeals | packages/ap-client/src/client.js:61-70 | from every reachable state, dropping, reconnecting and draining is a run that brings the client every document of the subscribed collections and restores the invariant |
| SyncRuns.SafeReconnect | packages/ap-realtime/src/resume.js:20-47 | from every safe state a reconnect brings every document; both sides agree, where documents of several subscribed collections are filed aside, if and only if each document the client still files in the collection after it left the subscribed ones is back there or sent for another one |
| SyncRuns.CutIsRun | packages/ap-client/src/client.js:54-57 | deliveries and a drop are a run of the machine with the stated outcome |
| SyncRuns.ReconnectIsRun | packages/ap-client/src/client.js:61-70 | attach, ask, answer and drain are a run of the machine with the stated outcome |
| SyncRuns.HandshakeRace | packages/ap-client/src/client.js:65-68 | once the frame of a put between subscription and replay is delivered, the client is safe in each of its collections if and only if it had missed nothing there before |
| SyncRuns.PassedIsNeverResent | packages/ap-store/src/store.js:188-189 | an entry the saved cursor has passed is not behind that cursor, so a resume from it does not send the entry |
| SyncRuns.StaleCursorLoses | packages/ap-client/src/client.js:141-142 | until its frame is delivered, a put not past the client's cursor is an entry the cursor wrongly claims, unless the client has that very document already, filed so or in several |
| SyncLosses.LiveLinkConverges | packages/relay/src/realtime-bridge.js:110-117 | on a link that stays up, with puts in any cursor order, the client has every document each time the channel has drained, and all guarantees hold again |
| SyncReplays.ReconnectOutcome | packages/ap-realtime/src/resume.js:27-40 | for any server, a reconnect files a document under the last subscription whose replay sends it, or leaves it where it was; so both sides agree on it in a collection if and only if none sends it and they did before, or the last to send it is this collection or the server does not list it here |
| SyncReplays.OverlapOutcome | packages/ap-realtime/src/resume.js:31-37 | on a document in two subscribed collections both sides agree in all of them after a reconnect if and only if they did before and every cursor had passed it |
| SyncReplays.ReconnectAgrees | packages/ap-realtime/src/resume.js:20-47 | for any server, a reconnect brings a collection to agreement, up to excused documents and the filing of those in several, if and only if each listed document is sent or was there and each other one filed there is sent for another collection |
| SyncReplays.SingleReconnect | packages/ap-realtime/src/resume.js:20-47 | with each document in one subscribed collection: if and only if the client holds every entry its saved cursor has passed, and whatever else it files in the collection is sent for another one |
| SyncReplays.AgreeIsExact | packages/ap-client/src/client.js:215-226 | without documents in several subscribed collections, agreement is exactly: each listed document is held in the collection with the server's content, and nothing else is filed there |
| SyncLosses.StalePutOutcome | packages/relay/src/realtime-bridge.js:110-117 | after a put in any order, some deliveries and a drop, the document is lost to a collection if and only if the saved cursor is past it and the client does not hold it there; a delivered frame is held; a reconnect brings every document if and only if it sends this one or the client has it, in a single collection exactly when it is not lost |
| SyncLosses.LostForGood | packages/ap-client/src/client.js:197-227 | a document the client does not hold in a collection, with its cursor, its last resume and all frames under way past it, stays lost there over every further run with puts in turn until it is put again or leaves |
| SyncRaces.RacedIsRun | packages/ap-client/src/client.js:65-68 | a put during the handshake and the delivery of its frame are a run of the machine with the stated outcome |
| SyncRaces.RaceWhileAttached | packages/ap-client/src/client.js:65-68 | a frame delivered before the client reads its cursors loses it every missed entry of the put's collections over every further run with puts in turn, until the entry is put again or leaves |
| SyncRaces.AnsweredIsRun | packages/ap-client/src/client.js:197-203 | the pending answer, some deliveries and a drop are a run of the machine with the stated outcome |
| SyncRaces.RaceWhileAsked | packages/ap-client/src/client.js:197-203 | a frame delivered after the client has read its cursors loses a missed entry if the connection drops before the answer's first frame for the collection is delivered, and only then if the entry is in one subscribed collection |
| SyncRaces.RaceMadeGood | packages/ap-realtime/src/resume.js:20-47 | once such a frame is delivered for each collection of the put a reconnect brings every document, and the whole answer does at once |
| SyncReplays.ReplayIdempotent | packages/ap-client/src/client.js:215-226 | applying any frames twice leaves the same documents and membership as applying them once |
| SyncDeletes.DeletedOutcome | packages/ap-store/src/store.js:137-150 | a safe client with nothing extra agrees with the server after a delete and a reconnect if and only if it had not got the document in the collection |
| SyncDeletes.LeaveOutcome | packages/ap-store/src/store.js:137-150 | a document deleted or moved out of the subscribed collections in a run, some deliveries and a drop: a reconnect brings agreement if and only if the client has not got it by then, nor has another such document that is neither back nor sent for another collection; a client that is live and drained has got it |
| SyncDeletes.DeleteStays | packages/ap-store/src/store.js:144-149 | for every server and document of one subscribed collection: a first connection, the delete, its delivery and a reconnect are a run that ends in disagreement |
| SyncDeletes.DeletesNeverArrive | packages/ap-client/src/client.js:215-226 | a client that has a document which is in no subscribed collection of the server keeps it, and the two sides disagree, over every further run, deletes included, until the document is put again |
| OutboxModel.ListingIsEntries | packages/ap-client/src/client.js:229-238 | the outbox collection lists outbox entries only, one per target |
| OutboxModel.PublishConserves | packages/ap-client/src/client.js:229-235 | queueing replaces the waiting version of the id and disturbs no other |
| OutboxModel.HandOver | packages/ap-client/src/client.js:248-250 | sending and deleting one entry keeps the balance of waiting and handed-over versions |
| OutboxModel.FlushOneMore | packages/ap-client/src/client.js:240-254 | a flush that gets one entry further sends one frame more, for the next entry by (ts, id) |
| OutboxModel.FlushKeepsSuffix | packages/ap-client/src/client.js:252 | where a flush stops, every later entry is still there unchanged |
| OutboxModel.NewOutboxConserved | packages/ap-client/src/client.js:44-58 | a client without outbox entries and publications starts in balance |
| OutboxModel.OutboxConservation | packages/ap-client/src/client.js:156-158 | over every run, each published id either waits in its latest version or the last frame handed over for it carries that version's document, collections and cursor, and no entry remains |
| OutboxModel.PublishedArrives | packages/ap-client/src/client.js:229-255 | whatever a new client does after publishing a version, until it publishes the id again: the whole version waits in the outbox collection, or the last data frame for the id has exactly its id, document, collections and cursor, and no entry waits |
| VolatileStore.VolatileAdapter.Put | packages/core/src/adapters/volatile-adapter.js:20-23 | expired entries go, the key is stamped with its expiry |
| VolatileStore.VolatileAdapter.Has | packages/core/src/adapters/volatile-adapter.js:25-33 | true exactly for an entry that has not expired |
| VolatileStore.VolatileAdapter.Prune | packages/core/src/adapters/volatile-adapter.js:54-59 | exactly the unexpired entries remain |
| VolatileStore.VolatileAdapter.Clear | packages/core/src/adapters/volatile-adapter.js:48-52 | exactly the keys under the prefix go |
| VolatileStore.WindowIsIdeal | packages/core/src/adapters/volatile-adapter.js:20-59 | an id is live in the lazily pruned map exactly when one of its deliveries is less than ttl old |
| VolatileStore.WindowEqualsIdeal | packages/core/src/adapters/volatile-adapter.js:20-59 | at any later time what is live in the map is exactly each id under the expiry of its last delivery |
| VolatileStore.DedupExact | packages/ap-store/src/store.js:89-96 | a delivery is announced exactly when no delivery of that id happened less than ttl earlier |
| Base58.Encode | packages/ap-core/src/base58.js:9-31 | the byte-by-byte loops compute the base-58 digits of the number, behind one letter per leading zero byte |
| Base58.EncodingReads | packages/ap-core/src/base58.js:9-31 | the letters of an encoding, read as base-58 digits, are the number the bytes make, behind one 1 per leading zero byte |
| Base58.Decode | packages/ap-core/src/base58.js:33-56 | the loops compute the base-256 digits via hex, behind one zero byte per leading 1; the error exactly for a letter outside the alphabet |
| Base58.DecodeEncode | packages/ap-core/src/base58.js:9-56 | decoding undoes encoding on all bytes, except that zero bytes and nothing else come back one longer |
| Base58.EncodeDecode | packages/ap-core/src/base58.js:9-56 | encoding undoes decoding on all accepted strings, except that strings of 1s come back one longer |
| Base58.LetterIsAlphabet | packages/ap-core/src/base58.js:5-6 | the letter arithmetic used in proofs is the 58-letter alphabet and its inverse |
| Multikey.MultikeyRoundTrip | packages/ap-core/src/multikey.js:59-76 | each decoder undoes its own encoder and rejects every other codec |
| Multikey.AcceptedReencodes | packages/ap-core/src/multikey.js:67-76 | every accepted string is the encoding of the 32 bytes it decodes to |
| Multikey.MultikeyBijection | packages/ap-core/src/multikey.js:59-76 | exactly the encodings of 32-byte keys are accepted |
| Multikey.Ed25519Shape | packages/ap-core/src/multikey.js:59-64 | every Ed25519 multikey has 48 characters and starts with z6Mk |
| Multikey.X25519Shape | packages/ap-encryption/src/x25519-multikey.js:12-17 | every X25519 multikey has 48 characters and starts with z6LS |
| Multikey.KeysNeverConfused | packages/ap-encryption/src/x25519-multikey.js:12-28 | each of the two decoders rejects everything the other encoder produces |
| Ids.EncodeBase32 | packages/as2/src/id.js:14-32 | the bit buffer loop spells the bytes, read as one number and padded to a multiple of five bits, in base 32 |
| Ids.CrockfordOrder | packages/as2/src/id.js:12 | digits spelled in the 32-letter alphabet sort as the digits do |
| Ids.Base32KeepsOrder | packages/as2/src/id.js:14-32 | on byte strings of one length encoding is a strict order embedding with ceil(8n/5) characters |
| Ids.Base32Reads | packages/as2/src/id.js:14-32 | the letters of an encoding, read as base-32 digits, are the number the bytes make with zero bits behind it, so nothing is lost or added |
| Ids.MintLocalId | packages/as2/src/id.js:38-43 | 26 characters spelling six time bytes and ten random ones |
| Ids.LocalIdsSortByTime | packages/as2/src/id.js:38-43 | an id minted at one time sorts before one minted at another whatever the random bytes if and only if its time is smaller modulo 2^48 |
| Ids.LocalIdsSort | packages/as2/src/id.js:38-43 | local ids sort by time modulo 2^48 and then by their random bytes, and are equal only when both are |
| Ids.LocalIdReads | packages/as2/src/id.js:38-43 | the 26 letters spell the time modulo 2^48 followed by the ten random bytes and two zero bits |
| Ids.MintedIdIs | packages/as2/src/id.js:50-55 | a full id is the base without one trailing slash, the collection and the local id, with slashes between |
| Ids.MintedIdsSort | packages/as2/src/id.js:50-55 | full ids under one base and collection sort as their local ids |
| Canonicalize.CanonicalizeAccepted | packages/as2/src/canonicalize.js:15-49 | an accepted value prints as the canonical text of its meaning: members by key, undefined dropped or null, one zero |
| Canonicalize.CanonicalizeRejects | packages/as2/src/canonicalize.js:22-48 | a NaN, an infinity, a bigint, a function or a symbol anywhere makes the call throw |
| JsonTexts.UnitPrints | packages/as2/src/canonicalize.js:29 | a unit prints with its two-character escape if it has one, as a backslash, u and four lower-case hexadecimal digits if it is another control character or a lone surrogate, and otherwise as itself (RFC 8785 section 3.2.2.2) |
| JsonTexts.PairPrints | packages/as2/src/canonicalize.js:29 | a surrogate pair prints as it is |
| JsonTexts.PartsPrint | packages/as2/src/canonicalize.js:29 | where no pair is cut, a string prints as its parts one after the other, so the two rows above settle every string |
| JsonTexts.CleanPrints | packages/as2/src/canonicalize.js:29 | a string without quote, backslash, control character and lone surrogate prints as itself between quotes |
| JsonTexts.AtomsPrint | packages/as2/src/canonicalize.js:16-27 | the texts of null, true, false and numbers; -0 prints as 0 |
| JsonTexts.ArrayPrints | packages/as2/src/canonicalize.js:35-38 | an array prints its items' texts between brackets with commas, undefined items as null |
| JsonTexts.ObjectPrints | packages/as2/src/canonicalize.js:40-46 | an object prints the members that are not undefined, in ascending order of their keys, each as the text of its key, a colon and the text of its value |
| JsonTexts.ThrowsForContents | packages/as2/src/canonicalize.js:22-48 | a call throws if and only if a NaN, an infinity, a bigint, a function, a symbol or a bare undefined stands somewhere in the value, and the failure is that of such a value |
| JsonReader.PrintsExactlyTheAccepted | packages/as2/src/canonicalize.js:15-49 | the call succeeds exactly on the accepted values |
| JsonReader.ParseUndoesPrint | packages/as2/src/canonicalize.js:15-49 | a JSON reader gets back from canonical text exactly what was meant, and nothing is left over |
| JsonReader.CanonicalTextIsMeaning | packages/as2/src/canonicalize.js:51-54 | two values print alike if and only if they mean the same |
| JsonReader.MemberOrderIsLost | packages/as2/src/canonicalize.js:41-45 | the same members in another order print alike, or fail alike |
| JsonReader.UnitsBack | packages/as2/src/canonicalize.js:29 | string escaping, surrogate pairs and lone surrogates included, is undone by reading |
| Sse.SseClient.HandleChunk | packages/ap-realtime/src/sse-client-transport.js:55-69 | one block delivers one frame, or none if it has no data line or does not parse |
| Sse.BlockMeaning | packages/ap-realtime/src/sse-client-transport.js:55-69 | a block of lines delivers what the trimmed payloads of its data lines, joined by line feeds, parse to; without a data line, or when that does not parse, nothing |
| Sse.SseClient.Receive | packages/ap-realtime/src/sse-client-transport.js:40-46 | appending a piece and taking off complete blocks delivers what one-shot splitting of buffer and piece delivers, and keeps its rest |
| Sse.SseClient.Pump | packages/ap-realtime/src/sse-client-transport.js:31-47 | what is delivered depends on the whole text only, not on the pieces it came in |
| Sse.SsePeer.constructor | packages/ap-realtime/src/sse-server-transport.js:43-49 | the stream opens with the comment block, and nothing else |
| Sse.SsePeer.Send | packages/ap-realtime/src/sse-server-transport.js:23-26 | an open stream grows by `data: `, the serialized frame and a blank line; an ended one does not change |
| Sse.SsePeer.Close | packages/ap-realtime/src/sse-server-transport.js:33-35 | ends the stream and writes nothing |
| Sse.FramesIncremental | packages/ap-realtime/src/sse-client-transport.js:41-46 | splitting what has arrived and going on with the rest is splitting everything at once |
| Sse.StreamParses | packages/ap-realtime/src/sse-server-transport.js:23-49 | parsing a server's whole text gives exactly the frames sent, in order |
| Sse.SseDelivers | packages/ap-realtime/src/sse-client-transport.js:31-69 | for any frames, any fragmentation and any part of the text that has arrived, a prefix of the frames is delivered, and all of them once all has arrived |
| HttpSignature.CoveredAllIs | packages/ap-core/src/http-signature.js:15-24 | building the signing string succeeds exactly when every name has something to sign |
| HttpSignature.SigningStringInjective | packages/ap-core/src/http-signature.js:15-26 | a signing string over newline-free values determines the signed names and values |
| HttpSignature.SigningStringBinds | packages/ap-core/src/http-signature.js:15-26 | two requests with one signing string agree on every signed header and on the request line |
| HttpSignature.RequestLineBinds | packages/ap-core/src/http-signature.js:10-13 | equal request lines mean equal method, up to case, and equal path and query |
| HttpSignature.ParseSignatureHeader | packages/ap-core/src/http-signature.js:81-97 | collects every match of the pattern, later ones winning; fails exactly when keyId, headers or signature is missing or empty; returns these three, the names split at spaces |
| HttpSignature.HeaderRoundTrip | packages/ap-core/src/http-signature.js:74-87 | scanning a printed header gives back the four parameters printed |
| HttpSignature.KeyIdExtracted | packages/ap-core/src/http-signature.js:145-149 | the quick extractor returns the signer's key id if and only if it has no quote |
| HttpSignature.SignRequest | packages/ap-core/src/http-signature.js:46-79 | the whole header set sent, and exactly when an argument is missing or the URL invalid; `SentHeaders`, `SentSignature` and `HeaderText` say what is in it |
| HttpSignature.VerifyRequest | packages/ap-core/src/http-signature.js:110-138 | accepts exactly a parsable header whose digest agrees and whose rebuilt signing string the key verifies |
| HttpSignature.SignVerifyRoundTrip | packages/ap-core/src/http-signature.js:46-149 | a signed request verifies if and only if a named header was signed and the caller's digest, if any, is the body's; both readers of the key id return the signer's |
| HttpSignatureLimits.SignVerifyExact | packages/ap-core/src/http-signature.js:46-138 | for any quote-free names, under signatures that fit one message only: it verifies if and only if, besides, no signed name has a space and a signed signature header is the one sent |
| HttpSignatureMeaning.SentHeaders | packages/ap-core/src/http-signature.js:60-66 | the headers sent are those given, host, date and the body's digest where missing, and the signature; nothing else |
| HttpSignatureMeaning.SentSignature | packages/ap-core/src/http-signature.js:68-76 | the signature is over the headers sent, with the signature header as it was given, under the names that have something to sign |
| HttpSignatureMeaning.SignedNames | packages/ap-core/src/http-signature.js:68-70 | the names signed are those asked for that are the request target or a header, in their order |
| HttpSignatureMeaning.HeaderText | packages/ap-core/src/http-signature.js:74-76 | the Signature header, letter by letter |
| HttpSignatureMeaning.SigningText | packages/ap-core/src/http-signature.js:10-26 | line by line the signing string is a name, a colon, a space and the header's value, or the lower-case method and the target (section 2.3 of draft-cavage-http-signatures) |
| HttpSignatureMeaning.DigestChecked | packages/ap-core/src/http-signature.js:121-123 | a request that verifies with a non-empty digest header and a body has the digest of that body in the header |
| HttpSignatureMeaning.VerifiedBinds | packages/ap-core/src/http-signature.js:110-138 | under signatures that fit one message only, a request verifying under a signature made for another one names the same headers and agrees in each of them, in method and target if signed, and in the body if a digest was signed and digests do not collide |
| HttpSignatureMeaning.MatchIsFirst | packages/ap-core/src/http-signature.js:83-87 | the scan finds the first parameter in quotes there is, or none when there is none |
| HttpSignatureMeaning.LaterParamWins | packages/ap-core/src/http-signature.js:85-87 | of two parameters with one name the later counts, and every other one counts |
| HttpSignatureMeaning.KeyIdIsFirst | packages/ap-core/src/http-signature.js:145-149 | on any text the quick extractor gives the first key id in quotes, or nothing when there is none |
| Delivery.ResolveInboxes | packages/ap-delivery/src/resolve-inboxes.js:14-28 | the distinct inboxes and the errors that `InboxesMeaning` and `ErrorsMeaning` describe |
| Delivery.InboxesMeaning | packages/ap-delivery/src/resolve-inboxes.js:18-21 | every resolved recipient's inbox, the shared one if it names one, is there once, in the order of the first recipient that resolves to it, and there is no other |
| Delivery.ErrorsMeaning | packages/ap-delivery/src/resolve-inboxes.js:18-24 | each recipient that does not resolve gives one error with its id and message, in order, and no other does |
| Delivery.DeliverActivity | packages/ap-delivery/src/deliver.js:16-36 | one result per inbox in order, whatever happened at the others: the response's status, or the exception's message |
| Delivery.AttemptSucceeds | packages/ap-delivery/src/queue.js:99-111 | an attempt succeeds exactly when every recipient resolves and its inbox accepts the activity |
| Delivery.RefusalRemembered | packages/ap-delivery/src/queue.js:114 | an attempt whose first refusing inbox threw remembers what it threw |
| Delivery.AttemptRemembers | packages/ap-delivery/src/queue.js:114 | otherwise a failed attempt remembers why the first unresolved recipient was, and if there is none that the error is not known |
| DeliveryQueueModel.BackoffShape | packages/ap-delivery/src/queue.js:17-23 | delays never shrink, never exceed six hours, and stay below that exactly up to the tenth failure, so eight attempts never meet the cap |
| DeliveryQueueModel.ElapsedIs | packages/ap-delivery/src/queue.js:18-23 | the first k delays add up to 30000(2^k - 1) ms for k up to 10, and grow by six hours each beyond |
| DeliveryQueueModel.DeliveryQueue.Enqueue | packages/ap-delivery/src/queue.js:67-79 | a new entry, due at once, through the store |
| DeliveryQueueModel.EntryIdsApart | packages/ap-delivery/src/queue.js:31-33 | the entry id, letter by letter; queues whose collection ids have no delimiter never share one |
| DeliveryQueueModel.DeliveryQueue.Pending | packages/ap-delivery/src/queue.js:82-84 | every queued entry, newest first |
| DeliveryQueueModel.DeliveryQueue.Try | packages/ap-delivery/src/queue.js:99-114 | the error of one attempt, or success |
| DeliveryQueueModel.DeliveryQueue.Reschedule | packages/ap-delivery/src/queue.js:107-131 | success and giving up remove the entry, any other failure puts it back later with one attempt more |
| DeliveryQueueModel.DeliveryQueue.ProcessDue | packages/ap-delivery/src/queue.js:92-135 | every due entry is tried once; the new store and all results, also when a store call throws half-way |
| QueueRuns.ResultsReport | packages/ap-delivery/src/queue.js:96-131 | each result is about a due entry, counts one attempt more, and is a delivery if and only if every recipient was served in that attempt |
| QueueRuns.DueAreReported | packages/ap-delivery/src/queue.js:96-97 | every due entry gets a result |
| QueueRuns.AttemptsAreLate | packages/ap-delivery/src/queue.js:113-123 | no attempt after k failures comes before enqueue time plus the k delays, that is 30000(2^k - 1) ms for k up to 10, whatever the clock does |
| QueueRuns.StepKeeps | packages/ap-delivery/src/queue.js:92-135 | no operation upsets the ledger, and no pass throws |
| QueueRuns.NewQueueBalanced | packages/ap-delivery/src/queue.js:44-64 | a queue nothing has been enqueued in starts in balance, whatever else the store holds |
| QueueRuns.QueueConservation | packages/ap-delivery/src/queue.js:67-135 | over any history every enqueued entry is pending with the activity and recipients it was enqueued with and due exactly when its last attempt put it, or settled once, within the attempt bound; and every attempt reported is a delivery exactly when every recipient, as enqueued, accepted the activity, as enqueued |
| QueueRuns.EnqueuedArrives | packages/ap-delivery/src/queue.js:67-135 | whatever happens after an activity is enqueued: its entry waits with that activity, those recipients, its failures counted and its exact next date and last error; or it is gone, and its last attempt delivered that activity to every one of them, or did not and was the last one allowed |
| WatchModel.Watcher.constructor | packages/reactive/src/watch.js:32-47 | starts subscribed, with its first read under way |
| WatchModel.Watcher.OnChange | packages/reactive/src/watch.js:43-45 | an event of the watched id supersedes all earlier reads |
| WatchModel.Watcher.OnRead | packages/reactive/src/watch.js:37-40 | only the newest read of a live watch is delivered |
| WatchModel.Watcher.Unsubscribe | packages/reactive/src/watch.js:49-52 | disposes of the watch without delivering |
| WatchModel.WatchConverges | packages/reactive/src/watch.js:24-53 | under any order of reads, generations delivered strictly increase, and once all reads have settled with no write under way the last value delivered is the store's |
| WatchModel.NothingAfterUnsubscribe | packages/reactive/src/watch.js:37-52 | nothing is delivered after unsubscribing, not even by reads on their way |

## Left out

- SyncRuns.LosslessReconnect: has two hypotheses the code does not establish itself: each put gets a cursor past all given out for its collections (`InTurn`), and no put to a subscribed collection comes between subscribing and replaying (`Quiet`). `LiveLinkConverges`, `StalePutOutcome` and `LostForGood`, and `RaceWhileAttached` and `RaceWhileAsked`, say what happens without them. It promises where a document is filed only for one subscribed collection; `ReconnectOutcome` says what happens to the others. Documents in subscribed collections have timestamps in range (`ServerOk`), subscriptions are fixed during a run and the client only reads.
- OutboxModel.OutboxConservation: "sent" means handed to the transport, as the code has no acknowledgements.
- StoreLaws.RunKeepsLatest: histories without half-way puts; `RunHolds` and `LatestPutHeld` cover all histories.
- QueueRuns.QueueConservation: the clock stays in the range a cursor can hold, and no activity is enqueued twice under one id; `ProcessDue` itself covers the exception of an out-of-range clock.
- HttpSignature.SignVerifyRoundTrip: header names other than `signature`, without spaces and quotes; `SignVerifyExact` covers the first two, and a name with a quote, which no HTTP header name has, would be text the scanner reads as other parameters.
- HttpSignature.SigningStringInjective: for names without a colon or line break, as header names have.
- Sse.SseDelivers: frames serialize to one line without outer white space and parsing undoes serializing; text, not bytes, so the streaming decoder is outside.
- JsonReader.CanonicalTextIsMeaning: printing a finite number is an injective token; arrays have no holes; no `__proto__` member.
- WatchModel.WatchConverges: a write is a change of the value followed later by its event; a put that throws in between, as in `OutOfRangePut`, stays a write under way.
- BridgeModel.RealtimeBridge.OnData: frames of the persistent tier.
- ClientModel.ApClient.HandleFrame: frames of the persistent tier; one clock reading per frame; frames do not carry the ids of the client's own outbox entries and cursors.
- ClientModel.ApClient.Publish: documents that do not pose as the client's own bookkeeping, with a timestamp in range, as `Date.now()` gives; the missing-type error is outside.
- DeliveryQueueModel.DeliveryQueue.constructor: the queue's collection holds queue entries only; the code reads whatever is filed there as an entry.
- ApStoreModel.ApStore.Put: collection ids do not contain the delimiter; `IndexKeysMeet` says exactly which others would make two entries share a key. An exception thrown by a listener surfaces from the code's `put` after the document is stored; in the model `RealtimeBridge.OnData` reports it.
- Atomicity: two interleaved puts of one id can both find no existing record.
- The session tier, `getSessionChildren`, `endSession`, and `list` on the volatile adapter: re-puts accumulate entries there, so the uniqueness laws do not hold.
- Ephemeral and session frames on the wire, the `kind` label of a frame, and frame validation beyond parse failure.
- `publish` with encryption, the encryption guard, minted document ids, and `watchChildren`.
- WebSocket transports, HTTP routing, the event bus, the file adapters and the vault: plumbing or pass-through.
- Key generation, RSA, Ed25519 and X25519 operations, SHA-256, base64 and URL parsing: parameters with the facts needed of them.
- Missing-argument errors of constructors, and the key material of the delivery queue.
- `decodeCursor` and `compareCursors`: not used by the sync code.
- Prototype-named keys on plain JavaScript objects used as maps.
- Actor, NodeInfo, WebFinger and group builders, the vocabulary and the registry: record construction.
