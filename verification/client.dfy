/** The client: local store first, outbox second, transport last. */
module ClientModel {
  import opened Texts
  import opened Cursor
  import opened Documents
  import opened StoreKeys
  import opened MemoryAdapter
  import opened StoreModel
  import opened ApStoreModel
  import opened StoreLaws
  import opened Frames
  import opened ResumeModel
  import opened Replicas
  import opened OutboxModel
  import opened SyncSafety
  import opened SyncReplays

  /** A connection that can fail at any moment; a failed send throws. */
  class Transport {
    var open: bool
    var sent: seq<Frame>

    constructor ()
      ensures !open && sent == []
    {
      open, sent := false, [];
    }

    method Connect() returns (ok: bool)
      modifies this
      ensures open == ok && sent == old(sent)
    {
      if * {
        open := true;
      } else {
        open := false;
      }
      ok := open;
    }

    method Send(frame: Frame) returns (ok: bool)
      modifies this
      ensures sent == if ok then old(sent) + [frame] else old(sent)
      ensures open == ok && (ok ==> old(open))
    {
      if open {
        if * {
          open := false;
        }
      }
      if open {
        sent := sent + [frame];
      }
      ok := open;
    }
  }

  // ---------------------------------------------------------------- the store seen as a replica

  lemma PutDocView(records: Records, r: Record)
    requires !IsCursorId(r.doc.id)
    ensures View(records[r.doc.id := r])
         == View(records).(docs := View(records).docs[r.doc.id := Copy(r.doc, r.collections)])
  {
    var records' := records[r.doc.id := r];
    assert ViewDocs(records') == ViewDocs(records)[r.doc.id := Copy(r.doc, r.collections)];
    forall c
      ensures GetCursor(records', c) == GetCursor(records, c)
    {
      CursorIdIsNoEntry(c);
    }
    SameCursors(ViewCursors(records'), ViewCursors(records));
  }

  lemma SetCursorView(records: Records, c: Text, cursor: Text, ts: int)
    ensures View(records[CursorId(c) := Record(ts, CursorMark(CursorId(c), cursor), [])])
         == View(records).(cursors := View(records).cursors[c := cursor])
  {
    var records' := records[CursorId(c) := Record(ts, CursorMark(CursorId(c), cursor), [])];
    CursorIdIsNoEntry(c);
    assert ViewDocs(records') == ViewDocs(records);
    forall d
      ensures GetCursor(records', d) == if d == c then Some(cursor) else GetCursor(records, d)
    {
      CursorIdInjective(c, d);
    }
    SameCursors(ViewCursors(records'), ViewCursors(records)[c := cursor]);
  }

  lemma SameCursors(a: map<Text, Text>, b: map<Text, Text>)
    requires forall d :: (d in a <==> d in b) && (d in a ==> a[d] == b[d])
    ensures a == b
  {
  }

  /** Writing under an id that is not an outbox entry's leaves the outbox alone. */
  lemma PutOutsideOutbox(records: Records, r: Record, box: Text)
    requires OutboxOk(records, box) && !Unindexable(r) && !IsEntryId(r.doc.id) && box !in r.collections
    ensures OutboxUntouched(records, records[r.doc.id := r], box)
  {
  }

  lemma UntouchedTransitive(a: Records, b: Records, c: Records, box: Text)
    requires OutboxUntouched(a, b, box) && OutboxUntouched(b, c, box)
    ensures OutboxUntouched(a, c, box)
  {
  }

  lemma CursorIdIsNoEntry(c: Text)
    ensures IsCursorId(CursorId(c)) && !IsEntryId(CursorId(c)) && CursorId(c) != []
  {
    assert CursorId(c)[7] == 'c' as int && OUTBOX_ENTRY_PREFIX[7] == 'o' as int;
  }

  /** A frame that does not pose as the client's own bookkeeping. */
  predicate WireOk(frame: Frame, box: Text) {
    frame.Data? && frame.doc.Some? ==>
      && !IsEntryId(frame.doc.value.id) && !IsCursorId(frame.doc.value.id)
      && box !in frame.collections && forall c :: c in frame.collections ==> DelimFree(c)
  }

  function Subscribes(subscriptions: seq<Text>): (frames: seq<Frame>)
    ensures |frames| == |subscriptions|
    ensures forall i :: 0 <= i < |frames| ==> frames[i] == Subscribe(subscriptions[i])
  {
    seq(|subscriptions|, i requires 0 <= i < |subscriptions| => Subscribe(subscriptions[i]))
  }

  function Handshake(actorId: Text, subscriptions: seq<Text>, since: Cursors): seq<Frame> {
    [Hello(actorId)] + Subscribes(subscriptions) + [Resume(since)]
  }

  class ApClient {
    const store: ApStore
    const transport: Transport
    const actorId: Text
    const outboxCollection: Text
    var subscriptions: seq<Text>
    var connected: bool

    ghost predicate Valid()
      reads this, store, store.adapter
    {
      && store.Valid() && OutboxOk(store.records, outboxCollection)
      && DelimFree(outboxCollection) && NoDuplicates(subscriptions)
    }

    constructor (store: ApStore, transport: Transport, actorId: Text)
      requires store.Valid() && DelimFree(actorId)
      requires OutboxOk(store.records, OUTBOX_COLLECTION_PREFIX + actorId)
      ensures Valid() && this.store == store && this.transport == transport && this.actorId == actorId
      ensures outboxCollection == OUTBOX_COLLECTION_PREFIX + actorId
      ensures subscriptions == [] && !connected
    {
      this.store := store;
      this.transport := transport;
      this.actorId := actorId;
      outboxCollection := OUTBOX_COLLECTION_PREFIX + actorId;
      subscriptions := [];
      connected := false;
    }

    /** The transport's close callback: from now on publishes are queued only. */
    method OnTransportClose()
      requires Valid()
      modifies this`connected
      ensures Valid() && !connected
    {
      connected := false;
    }

    /** `subscribe`: a set that remembers insertion order. */
    method Subscribe(collectionId: Text) returns (ok: bool)
      requires Valid()
      modifies this`subscriptions, transport
      ensures Valid()
      ensures subscriptions == if collectionId in old(subscriptions) then old(subscriptions)
                               else old(subscriptions) + [collectionId]
      ensures transport.sent == if ok && connected && collectionId !in old(subscriptions)
                                then old(transport.sent) + [Frame.Subscribe(collectionId)] else old(transport.sent)
    {
      ok := true;
      if collectionId in subscriptions {
        return;
      }
      subscriptions := subscriptions + [collectionId];
      if connected {
        ok := transport.Send(Frame.Subscribe(collectionId));
      }
    }

    /** `#getCursor` for each subscription, in order. */
    method ReadCursors() returns (since: Cursors)
      requires Valid()
      ensures since == AskFor(View(store.records), subscriptions)
    {
      since := map[];
      for i := 0 to |subscriptions|
        invariant since == AskFor(View(store.records), subscriptions[..i])
      {
        var doc := store.Get(CursorId(subscriptions[i]));
        var cursor := if doc.Some? && doc.value.CursorMark? then Some(doc.value.cursor) else None;
        AskForOneMore(View(store.records), subscriptions, i);
        since := since[subscriptions[i] := cursor];
      }
      assert subscriptions[..|subscriptions|] == subscriptions;
    }

    /** `#setCursor`. */
    method SetCursor(collectionId: Text, cursor: Text, now: int)
      requires Valid() && Encodable(now)
      modifies store`records, store`emitted, store.adapter
      ensures Valid()
      ensures View(store.records)
           == old(View(store.records)).(cursors := old(View(store.records)).cursors[collectionId := cursor])
      ensures OutboxUntouched(old(store.records), store.records, outboxCollection)
    {
      var doc := CursorMark(CursorId(collectionId), cursor);
      CursorIdIsNoEntry(collectionId);
      PutOutsideOutbox(store.records, Record(now, doc, []), outboxCollection);
      SetCursorView(store.records, collectionId, cursor, now);
      var outcome := store.Put(doc, [], now);
    }

    /** `#handleFrame`: applies one frame from the server, with `now` as the local clock. */
    method HandleFrame(frame: Frame, now: int)
      requires Valid() && WireOk(frame, outboxCollection) && Encodable(now)
      modifies store`records, store`emitted, store.adapter
      ensures Valid()
      ensures View(store.records) == Handle(old(View(store.records)), frame, Subscribed(subscriptions))
      ensures OutboxUntouched(old(store.records), store.records, outboxCollection)
    {
      if frame.Resumed? {
        AdoptCursors(frame.cursors, now);
      } else if frame.Data? && frame.doc.Some? && frame.doc.value.id != [] {
        var doc := frame.doc.value;
        PutOutsideOutbox(store.records, Record(now, doc, frame.collections), outboxCollection);
        PutDocView(store.records, Record(now, doc, frame.collections));
        var outcome := store.Put(doc, frame.collections, now);
        if Usable(frame.cursor) {
          MarkCollections(frame.collections, frame.cursor.value, now);
        }
      }
    }

    method MarkCollections(collections: seq<Text>, cursor: Text, now: int)
      requires Valid() && Encodable(now)
      modifies store`records, store`emitted, store.adapter
      ensures Valid()
      ensures View(store.records) == old(View(store.records)).(cursors :=
                MarkAll(old(View(store.records)).cursors, collections, Subscribed(subscriptions), cursor))
      ensures OutboxUntouched(old(store.records), store.records, outboxCollection)
    {
      ghost var before := View(store.records);
      for i := 0 to |collections|
        invariant Valid()
        invariant View(store.records)
               == before.(cursors := MarkAll(before.cursors, collections[..i], Subscribed(subscriptions), cursor))
        invariant OutboxUntouched(old(store.records), store.records, outboxCollection)
      {
        assert collections[..i + 1][..i] == collections[..i];
        if collections[i] in subscriptions {
          ghost var mid := store.records;
          SetCursor(collections[i], cursor, now);
          UntouchedTransitive(old(store.records), mid, store.records, outboxCollection);
        }
      }
      assert collections[..|collections|] == collections;
    }

    method AdoptCursors(cursors: Cursors, now: int)
      requires Valid() && Encodable(now)
      modifies store`records, store`emitted, store.adapter
      ensures Valid()
      ensures View(store.records)
           == old(View(store.records)).(cursors := Adopt(old(View(store.records)).cursors, cursors))
      ensures OutboxUntouched(old(store.records), store.records, outboxCollection)
    {
      ghost var before := View(store.records);
      var todo := cursors.Keys;
      assert cursors - todo == map[];
      assert Adopt(before.cursors, map[]) == before.cursors;
      while todo != {}
        invariant todo <= cursors.Keys
        invariant Valid()
        invariant View(store.records) == before.(cursors := Adopt(before.cursors, cursors - todo))
        invariant OutboxUntouched(old(store.records), store.records, outboxCollection)
      {
        var c :| c in todo;
        AdoptOne(before.cursors, cursors, todo, c);
        if Usable(cursors[c]) {
          ghost var mid := store.records;
          SetCursor(c, cursors[c].value, now);
          UntouchedTransitive(old(store.records), mid, store.records, outboxCollection);
        }
        todo := todo - {c};
      }
      assert cursors - todo == cursors;
    }

    /** `#flushOutbox`: oldest first, until the transport fails. */
    method FlushOutbox() returns (ghost handed: nat)
      requires Valid()
      modifies store`records, store`emitted, store.adapter, transport
      ensures Valid()
      ensures handed <= |Listing(old(store.records), outboxCollection)|
      ensures handed == |Listing(old(store.records), outboxCollection)| || !transport.open
      ensures OutState(store.records, transport.sent, map[])
           == Flushed(OutState(old(store.records), old(transport.sent), map[]), outboxCollection, handed)
    {
      var newestFirst := store.GetChildren(outboxCollection, None);
      var entries := Reverse(newestFirst);
      FlushEntries(store.records, outboxCollection, entries);
      handed := SendEach(entries, OutState(store.records, transport.sent, map[]));
    }

    /** The first `i` entries of the outbox `s0` have been handed over, and no others. */
    ghost predicate FlushedTo(s0: OutState, i: nat)
      reads this, store, store.adapter, transport
    {
      && Valid() && OutboxOk(s0.records, outboxCollection) && i <= |Listing(s0.records, outboxCollection)|
      && OutState(store.records, transport.sent, map[]) == Flushed(s0, outboxCollection, i)
    }

    method SendEach(entries: seq<Doc>, ghost s0: OutState) returns (ghost handed: nat)
      requires Valid() && s0 == OutState(store.records, transport.sent, map[])
      requires EntriesOf(s0.records, outboxCollection, entries)
      modifies store`records, store`emitted, store.adapter, transport
      ensures FlushedTo(s0, handed) && (handed == |entries| || !transport.open)
    {
      FlushNothing(s0, outboxCollection);
      handed := 0;
      for i := 0 to |entries|
        invariant FlushedTo(s0, i) && handed == i
      {
        var ok := HandOverEntry(entries[i], s0, i);
        if !ok {
          return;
        }
        handed := i + 1;
      }
    }

    /** One entry of a flush: send it, and only then delete it. */
    method HandOverEntry(entry: Doc, ghost s0: OutState, ghost i: nat) returns (ok: bool)
      requires FlushedTo(s0, i) && i < |Listing(s0.records, outboxCollection)|
      requires EntryOf(s0.records, Listing(s0.records, outboxCollection)[i], entry)
      modifies store`records, store`emitted, store.adapter, transport
      ensures transport.open == ok && FlushedTo(s0, if ok then i + 1 else i)
    {
      FlushOneMore(s0, outboxCollection, i);
      FlushKeepsSuffix(s0, outboxCollection, i, i);
      EncodeCursorIs(entry.ts, entry.targetId);
      var frame := BuildDataFrame(Change(entry.targetId, Some(entry.doc), entry.collections, Some(entry.ts)));
      ok := transport.Send(frame.value);
      if ok {
        RemovalKeepsOk(store.records, entry.id, outboxCollection);
        var outcome := store.Delete(entry.id);
      }
    }

    /** `publish` in the persistent tier: store, queue, and flush if connected. */
    method Publish(doc: Doc, collections: seq<Text>, ts: int) returns (ghost handed: nat)
      requires Valid() && Publishable(Version(doc, collections, ts), outboxCollection)
      requires forall c :: c in collections ==> DelimFree(c)
      modifies store`records, store`emitted, store.adapter, transport
      ensures Valid() && (!connected ==> handed == 0)
      ensures var queued := OutState(Queued(old(store.records), Version(doc, collections, ts), outboxCollection),
                                     old(transport.sent), map[]);
              && OutboxOk(queued.records, outboxCollection)
              && handed <= |Listing(queued.records, outboxCollection)|
              && (connected ==> handed == |Listing(queued.records, outboxCollection)| || !transport.open)
              && OutState(store.records, transport.sent, map[]) == Flushed(queued, outboxCollection, handed)
    {
      ghost var v := Version(doc, collections, ts);
      QueuedIsTwoPuts(store.records, v, outboxCollection);
      var stored := store.Put(doc, collections, ts);
      var queued := store.Put(OutboxEntry(EntryId(doc.id), doc.id, doc, collections, ts), [outboxCollection], ts);
      handed := 0;
      FlushNothing(OutState(store.records, transport.sent, map[]), outboxCollection);
      if connected {
        handed := FlushOutbox();
      }
    }

    /** `connect`: hello, subscriptions, resume from the saved cursors, then the outbox. Any
        failing send throws and leaves the outbox untouched. */
    method Connect() returns (ok: bool, ghost shaken: nat, ghost handed: nat)
      requires Valid()
      modifies this`connected, store`records, store`emitted, store.adapter, transport
      ensures Valid()
      ensures var frames := Handshake(actorId, subscriptions, AskFor(View(old(store.records)), subscriptions));
              && shaken <= |frames| && handed <= |Listing(old(store.records), outboxCollection)|
              && (if ok then shaken == |frames| && connected else handed == 0)
              && (ok ==> handed == |Listing(old(store.records), outboxCollection)| || !transport.open)
              && OutState(store.records, transport.sent, map[])
                 == Flushed(OutState(old(store.records), old(transport.sent) + frames[..shaken], map[]),
                            outboxCollection, handed)
    {
      ghost var sent0 := transport.sent;
      ghost var frames := Handshake(actorId, subscriptions, AskFor(View(store.records), subscriptions));
      handed := 0;
      ok, shaken := ShakeHands();
      FlushNothing(OutState(store.records, transport.sent, map[]), outboxCollection);
      if ok {
        handed := FlushOutbox();
      }
    }

    method ShakeHands() returns (ok: bool, ghost shaken: nat)
      requires Valid()
      modifies this`connected, transport
      ensures Valid() && store.records == old(store.records)
      ensures ok ==> shaken == |subscriptions| + 2 && connected
      ensures SentPrefix(old(transport.sent), transport.sent,
                         Handshake(actorId, subscriptions, AskFor(View(store.records), subscriptions)), shaken)
    {
      ghost var sent0, since0 := transport.sent, AskFor(View(store.records), subscriptions);
      HandshakePrefix(sent0, actorId, subscriptions, since0, 0);
      shaken := 0;
      ok := transport.Connect();
      if !ok {
        return;
      }
      connected := true;
      ok := transport.Send(Hello(actorId));
      if !ok {
        return;
      }
      ghost var subscribed;
      ok, subscribed := SendSubscriptions();
      shaken := subscribed + 1;
      HandshakePrefix(sent0, actorId, subscriptions, since0, subscribed);
      if !ok {
        return;
      }
      var since := ReadCursors();
      ok := transport.Send(Resume(since));
      if ok {
        shaken := shaken + 1;
      }
    }

    method SendSubscriptions() returns (ok: bool, ghost subscribed: nat)
      modifies transport
      ensures subscribed <= |subscriptions| && (ok ==> subscribed == |subscriptions|)
      ensures transport.sent == old(transport.sent) + Subscribes(subscriptions)[..subscribed]
    {
      ok, subscribed := true, 0;
      for i := 0 to |subscriptions|
        invariant ok && subscribed == i
        invariant transport.sent == old(transport.sent) + Subscribes(subscriptions)[..i]
      {
        ok := transport.Send(Frame.Subscribe(subscriptions[i]));
        if !ok {
          return;
        }
        subscribed := i + 1;
      }
    }
  }

  lemma AskForOneMore(r: Replica, subs: seq<Text>, i: nat)
    requires i < |subs|
    ensures AskFor(r, subs[..i + 1]) == AskFor(r, subs[..i])[subs[i] := CursorIn(r, subs[i])]
  {
    assert subs[..i + 1] == subs[..i] + [subs[i]];
  }

  /** What was sent since is the first `n` of these frames. */
  ghost predicate SentPrefix(before: seq<Frame>, after: seq<Frame>, frames: seq<Frame>, n: nat) {
    n <= |frames| && after == before + frames[..n]
  }

  lemma Appended<T>(a: seq<T>, b: seq<T>, c: seq<T>)
    ensures (a + b) + c == a + (b + c) && a + [] == a
  {
  }

  lemma HandshakePrefix(sent: seq<Frame>, actorId: Text, subs: seq<Text>, since: Cursors, n: nat)
    requires n <= |subs|
    ensures var frames := Handshake(actorId, subs, since);
            && |frames| == |subs| + 2 && SentPrefix(sent, sent, frames, 0)
            && SentPrefix(sent, sent + [Hello(actorId)] + Subscribes(subs)[..n], frames, n + 1)
            && (n == |subs| ==>
                  SentPrefix(sent, sent + [Hello(actorId)] + Subscribes(subs)[..n] + [Resume(since)], frames, n + 2))
  {
    var frames := Handshake(actorId, subs, since);
    assert frames[..n + 1] == [Hello(actorId)] + Subscribes(subs)[..n];
    Appended(sent, [Hello(actorId)], Subscribes(subs)[..n]);
    if n == |subs| {
      assert frames[..n + 2] == frames[..n + 1] + [Resume(since)];
      Appended(sent, frames[..n + 1], [Resume(since)]);
    }
  }

  lemma AdoptOne(cursors: map<Text, Text>, resumed: Cursors, todo: set<Text>, c: Text)
    requires todo <= resumed.Keys && c in todo
    ensures Adopt(cursors, resumed - (todo - {c}))
         == if Usable(resumed[c]) then Adopt(cursors, resumed - todo)[c := resumed[c].value]
            else Adopt(cursors, resumed - todo)
  {
    var less, more := resumed - todo, resumed - (todo - {c});
    assert more == less[c := resumed[c]];
  }

  ghost predicate EntryOf(records: Records, e: Entry, entry: Doc) {
    && e.id in records && entry == records[e.id].doc && entry.id == e.id
    && entry.OutboxEntry? && entry.targetId != []
  }

  ghost predicate EntriesOf(records: Records, box: Text, entries: seq<Doc>) {
    && |entries| == |Listing(records, box)|
    && forall i :: 0 <= i < |entries| ==> EntryOf(records, Listing(records, box)[i], entries[i])
  }

  /** The two puts of a publish, as the store carries them out. */
  lemma QueuedIsTwoPuts(records: Records, v: Version, box: Text)
    requires OutboxOk(records, box) && Publishable(v, box)
    ensures var (stored, first) := PutEffect(records, v.doc, v.collections, v.ts);
            && first == Done && OutboxOk(stored, box)
            && PutEffect(stored, EntryDoc(v.doc.id, v), [box], v.ts) == (Queued(records, v, box), Done)
    ensures OutboxOk(Queued(records, v, box), box)
  {
    QueuedOk(records, v, box);
    EntryIdInjective(v.doc.id, v.doc.id);
    PutOutsideOutbox(records, Record(v.ts, v.doc, v.collections), box);
  }

  /** The reversed listing the flush walks is the outbox, oldest first. */
  lemma FlushEntries(records: Records, box: Text, entries: seq<Doc>)
    requires OutboxOk(records, box) && entries == Reverse(Newest(records, box, None))
    ensures EntriesOf(records, box, entries)
  {
    ListingIsEntries(records, box);
    NewestAt(records, box, None);
    DocsReversed(records, Listing(records, box), NewestEntries(records, box, None));
  }

  lemma DocsReversed(records: Records, es: seq<Entry>, newest: seq<Entry>)
    requires |newest| == |es| && forall i :: 0 <= i < |es| ==> newest[i] == es[|es| - 1 - i]
    requires forall i :: 0 <= i < |es| ==> es[i].id in records
    ensures forall i :: 0 <= i < |newest| ==> newest[i].id in records
    ensures |Reverse(DocsOf(records, newest))| == |es|
    ensures forall i :: 0 <= i < |es| ==> Reverse(DocsOf(records, newest))[i] == records[es[i].id].doc
  {
  }

  lemma RemovalKeepsOk(records: Records, id: Text, box: Text)
    requires OutboxOk(records, box)
    ensures OutboxOk(records - {id}, box)
  {
  }
}
