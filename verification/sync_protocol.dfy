/** The reconnect protocol as a two-party state machine, and its main guarantee: no run of puts,
    broadcasts, deliveries, drops and reconnects loses an entry. */
module SyncProtocol {
  import opened Texts
  import opened Cursor
  import opened Documents
  import opened StoreModel
  import opened ApStoreModel
  import opened StoreLaws
  import opened Frames
  import opened ResumeModel
  import opened Replicas
  import opened SyncSafety
  import opened SyncReplays

  // ---------------------------------------------------------------- draining a whole replay

  ghost predicate ReadFrom(since: Cursors, r: Replica, subs: seq<Text>) {
    forall c :: c in subs ==> SinceOf(since, c) == CursorIn(r, c)
  }

  /** After the replays of the first `n` subscriptions: those are synced, and the rest still stand
      at their old cursors. */
  ghost predicate Replayed(server: Records, r0: Replica, r: Replica, subs: seq<Text>, n: nat, frames: seq<Frame>)
    requires n <= |subs|
  {
    && r == HandleAll(r0, frames, Subscribed(subs))
    && SafeAlong(server, r0, frames, subs)
    && (forall i :: 0 <= i < n ==> SyncedIn(server, r, subs, subs[i]))
    && (forall i :: n <= i < |subs| ==> CursorIn(r, subs[i]) == CursorIn(r0, subs[i]))
  }

  /** The cursors to be returned are where the client will then be itself. */
  ghost predicate CursorsMatch(r: Replica, subs: seq<Text>, n: nat, cursors: Cursors)
    requires n <= |subs|
  {
    forall c :: c in cursors ==> c in subs[..n] && cursors[c] == CursorIn(r, c)
  }

  ghost predicate Drained(server: Records, r0: Replica, r: Replica, subs: seq<Text>, n: nat,
        sent: (seq<Frame>, Cursors))
    requires n <= |subs|
  {
    Replayed(server, r0, r, subs, n, sent.0) && CursorsMatch(r, subs, n, sent.1)
  }

  lemma {:induction false} DrainReplay(server: Records, r0: Replica, subs: seq<Text>, since: Cursors,
        n: nat) returns (r: Replica)
    requires ServerOk(server, subs) && NoDuplicates(subs) && Safe(server, r0, subs) && ReadFrom(since, r0, subs)
    requires n <= |subs|
    ensures Drained(server, r0, r, subs, n, Replay(server, subs[..n], since))
  {
    if n == 0 {
      r := r0;
    } else {
      var mid := DrainReplay(server, r0, subs, since, n - 1);
      var sent := Replay(server, subs[..n - 1], since);
      r := DrainNext(server, r0, mid, subs, since, n - 1, sent);
      ReplayUpTo(server, subs, since, n);
    }
  }

  lemma ReplayUpTo(server: Records, subs: seq<Text>, since: Cursors, n: nat)
    requires 0 < n <= |subs|
    ensures Replay(server, subs[..n], since)
         == WithCollection(server, subs[n - 1], since, Replay(server, subs[..n - 1], since))
  {
    assert subs[..n][..n - 1] == subs[..n - 1];
  }

  lemma DrainNext(server: Records, r0: Replica, mid: Replica, subs: seq<Text>, since: Cursors, n: nat,
        sent: (seq<Frame>, Cursors))
    returns (r: Replica)
    requires ServerOk(server, subs) && NoDuplicates(subs) && ReadFrom(since, r0, subs) && n < |subs|
    requires Drained(server, r0, mid, subs, n, sent)
    ensures Drained(server, r0, r, subs, n + 1, WithCollection(server, subs[n], since, sent))
  {
    var c := subs[n];
    assert c in subs && SinceOf(since, c) == CursorIn(mid, c);
    var children := Since(server, c, CursorIn(mid, c), None);
    r := ReplayNext(server, r0, mid, subs, n, sent.0, children);
    ReplayCursors(mid, r, subs, n, sent.1, children);
  }

  lemma ReplayNext(server: Records, r0: Replica, r: Replica, subs: seq<Text>, n: nat, frames: seq<Frame>,
        children: seq<Child>)
    returns (r': Replica)
    requires ServerOk(server, subs) && NoDuplicates(subs) && n < |subs|
    requires Replayed(server, r0, r, subs, n, frames)
    requires children == Since(server, subs[n], CursorIn(r, subs[n]), None)
    ensures Replayed(server, r0, r', subs, n + 1, frames + ReplayFrames(subs[n], children))
    ensures r'.cursors == if children == [] then r.cursors else r.cursors[subs[n] := NextCursor(children).value]
  {
    var added := ReplayFrames(subs[n], children);
    r' := HandleAll(r, added, Subscribed(subs));
    SafeAtEnd(server, r0, frames, subs);
    DrainCollection(server, r, subs[n], subs, children);
    ReplayAppend(server, r0, frames, added, subs, n);
    OtherCursorsKept(r, r', subs, n, children);
  }

  lemma OtherCursorsKept(r: Replica, r': Replica, subs: seq<Text>, n: nat, children: seq<Child>)
    requires NoDuplicates(subs) && n < |subs|
    requires r'.cursors == if children == [] then r.cursors else r.cursors[subs[n] := NextCursor(children).value]
    ensures forall i :: n < i < |subs| ==> CursorIn(r', subs[i]) == CursorIn(r, subs[i])
  {
  }

  lemma ReplayAppend(server: Records, r0: Replica, frames: seq<Frame>, added: seq<Frame>, subs: seq<Text>, n: nat)
    requires NoDuplicates(subs) && n < |subs| && SafeAlong(server, r0, frames, subs)
    requires var r := HandleAll(r0, frames, Subscribed(subs));
             var r' := HandleAll(r, added, Subscribed(subs));
             && (forall i :: 0 <= i < n ==> SyncedIn(server, r, subs, subs[i]))
             && SafeAlong(server, r, added, subs)
             && SyncedIn(server, r', subs, subs[n]) && OthersKept(server, r, r', subs, subs[n])
    ensures SafeAlong(server, r0, frames + added, subs)
    ensures HandleAll(r0, frames + added, Subscribed(subs))
         == HandleAll(HandleAll(r0, frames, Subscribed(subs)), added, Subscribed(subs))
    ensures var r' := HandleAll(r0, frames + added, Subscribed(subs));
            forall i :: 0 <= i < n + 1 ==> SyncedIn(server, r', subs, subs[i])
  {
    HandleAllConcat(r0, frames, added, Subscribed(subs));
    SafeAlongConcat(server, r0, frames, added, subs);
    forall i | 0 <= i < n
      ensures SyncedIn(server, HandleAll(r0, frames + added, Subscribed(subs)), subs, subs[i])
    {
      assert subs[i] != subs[n];
    }
  }

  lemma DrainCollection(server: Records, r: Replica, c: Text, subs: seq<Text>, children: seq<Child>)
    requires ServerOk(server, subs) && Safe(server, r, subs) && c in subs
    requires children == Since(server, c, CursorIn(r, c), None)
    ensures var frames := ReplayFrames(c, children);
            var r' := HandleAll(r, frames, Subscribed(subs));
            && SafeAlong(server, r, frames, subs)
            && SyncedIn(server, r', subs, c) && OthersKept(server, r, r', subs, c)
            && r'.cursors == if children == [] then r.cursors else r.cursors[c := NextCursor(children).value]
  {
    var k := SinceIsTail(server, r, subs, c);
    DrainTail(server, r, c, k, subs);
    TailEndsAtLast(server, c, k, children);
  }

  lemma TailEndsAtLast(server: Records, c: Text, k: nat, children: seq<Child>)
    requires k <= |Listing(server, c)|
    requires ReplayFrames(c, children) == TailFrames(server, c, k)
    ensures children != [] ==> NextCursor(children) == Some(LastCursor(Listing(server, c)))
  {
    if children != [] {
      var n := |children| - 1;
      assert ReplayFrames(c, children)[n] == ReplayFrame(c, children[n]);
      assert TailFrames(server, c, k)[n] == ReplayFrame(c, children[n]);
    }
  }

  lemma ReplayCursors(r: Replica, r': Replica, subs: seq<Text>, n: nat, cursors: Cursors, children: seq<Child>)
    requires NoDuplicates(subs) && n < |subs| && CursorsMatch(r, subs, n, cursors)
    requires r'.cursors == if children == [] then r.cursors else r.cursors[subs[n] := NextCursor(children).value]
    ensures subs[n] !in cursors
    ensures CursorsMatch(r', subs, n + 1,
                         cursors[subs[n] := if children != [] then NextCursor(children) else CursorIn(r, subs[n])])
  {
    assert subs[..n + 1] == subs[..n] + [subs[n]];
  }

  /** The closing frame changes nothing: the client is at those cursors already. */
  lemma ResumedIsNoop(r: Replica, cursors: Cursors, subscribed: set<Text>)
    requires forall c :: c in cursors ==> cursors[c] == CursorIn(r, c)
    ensures Handle(r, Resumed(cursors), subscribed) == r
  {
    assert Adopt(r.cursors, cursors) == r.cursors;
  }

  /** From any safe replica, everything a resume sends can be delivered safely, and ends synced. */
  lemma ReplayIsSafe(server: Records, r: Replica, subs: seq<Text>, since: Cursors)
    requires ServerOk(server, subs) && NoDuplicates(subs) && Safe(server, r, subs) && ReadFrom(since, r, subs)
    ensures var (frames, cursors) := Replay(server, subs, since);
            && SafeAlong(server, r, frames + [Resumed(cursors)], subs)
            && Synced(server, HandleAll(r, frames + [Resumed(cursors)], Subscribed(subs)), subs)
  {
    var (frames, cursors) := Replay(server, subs, since);
    var r' := DrainReplay(server, r, subs, since, |subs|);
    assert subs[..|subs|] == subs;
    SafeAtEnd(server, r, frames, subs);
    ResumedIsNoop(r', cursors, Subscribed(subs));
    assert [Resumed(cursors)][1..] == [];
    HandleAllConcat(r, frames, [Resumed(cursors)], Subscribed(subs));
    SafeAlongConcat(server, r, frames, [Resumed(cursors)], subs);
    forall c | c in subs
      ensures SyncedIn(server, r', subs, c)
    {
      var i :| 0 <= i < |subs| && subs[i] == c;
    }
  }

  // ---------------------------------------------------------------- a put at the server

  /** A put that does not throw. */
  ghost predicate Storable(server: Records, doc: Doc, ts: int) {
    doc.id != [] && Encodable(ts) && (doc.id in server ==> !Unindexable(server[doc.id]))
  }

  /** The cursors the server has given out, each with its collection. */
  type Issued = set<(Text, Text)>

  /** And whose cursor is past every one given out for its collections, also for entries since gone. */
  ghost predicate PutAllowed(server: Records, issued: Issued, doc: Doc, cs: seq<Text>, ts: int) {
    && Storable(server, doc, ts)
    && forall c, k :: c in cs && (c, k) in issued ==> Less(k, CursorOf(Entry(ts, doc.id)))
  }

  ghost function Stored(server: Records, doc: Doc, cs: seq<Text>, ts: int): Records {
    PutEffect(server, doc, cs, ts).0
  }

  lemma StoredLists(server: Records, doc: Doc, cs: seq<Text>, ts: int, d: Text, f: Entry)
    requires Storable(server, doc, ts)
    ensures Stored(server, doc, cs, ts) == server[doc.id := Record(ts, doc, cs)]
    ensures Lists(Stored(server, doc, cs, ts), d, f)
       <==> if f.id == doc.id then d in cs && f.ts == ts else Lists(server, d, f)
  {
  }

  lemma StoredOk(server: Records, subs: seq<Text>, doc: Doc, cs: seq<Text>, ts: int)
    requires ServerOk(server, subs) && Storable(server, doc, ts)
    ensures ServerOk(Stored(server, doc, cs, ts), subs)
  {
    assert Stored(server, doc, cs, ts) == server[doc.id := Record(ts, doc, cs)];
  }

  lemma StoredKeeps(server: Records, r: Replica, subs: seq<Text>, doc: Doc, cs: seq<Text>, ts: int, id: Text)
    requires Storable(server, doc, ts) && id != doc.id
    ensures HasCopy(Stored(server, doc, cs, ts), r, subs, id) <==> HasCopy(server, r, subs, id)
    ensures Several(Stored(server, doc, cs, ts), subs, id) <==> Several(server, subs, id)
  {
  }

  /** The client's cursors, and those the frame will leave it, have been given out. */
  ghost predicate CursorsIssued(r: Replica, issued: Issued, subs: seq<Text>) {
    forall c :: c in subs && c in r.cursors ==> (c, r.cursors[c]) in issued
  }

  ghost predicate SetsIssued(f: Frame, issued: Issued, subs: seq<Text>) {
    forall c :: c in subs && SetBy(f, c).Some? ==> (c, SetBy(f, c).value) in issued
  }

  lemma DeliveredIssued(r: Replica, f: Frame, issued: Issued, subs: seq<Text>)
    requires CursorsIssued(r, issued, subs) && SetsIssued(f, issued, subs)
    ensures CursorsIssued(Handle(r, f, Subscribed(subs)), issued, subs)
  {
    var r' := Handle(r, f, Subscribed(subs));
    forall c | c in subs && c in r'.cursors ensures (c, r'.cursors[c]) in issued {
      HandleCursor(r, f, subs, c);
    }
  }

  /** A put at a new greatest cursor keeps every safe replica safe. */
  lemma PutKeepsSafe(server: Records, r: Replica, issued: Issued, subs: seq<Text>, doc: Doc, cs: seq<Text>, ts: int)
    requires PutAllowed(server, issued, doc, cs, ts) && CursorsIssued(r, issued, subs) && Safe(server, r, subs)
    ensures Safe(Stored(server, doc, cs, ts), r, subs)
  {
    var server' := Stored(server, doc, cs, ts);
    assert forall c :: c in cs && c in subs ==> !Reached(r, c, Entry(ts, doc.id));
    forall d, e | d in subs && Lists(server', d, e) && Reached(r, d, e)
      ensures HasCopy(server', r, subs, e.id)
    {
      StoredLists(server, doc, cs, ts, d, e);
      assert NothingLost(server, r, subs, d) && HasCopy(server, r, subs, e.id);
      StoredKeeps(server, r, subs, doc, cs, ts, e.id);
    }
  }

  lemma {:induction false} PutKeepsSafeAlong(server: Records, r: Replica, frames: seq<Frame>, issued: Issued,
        subs: seq<Text>, doc: Doc, cs: seq<Text>, ts: int)
    requires PutAllowed(server, issued, doc, cs, ts) && SafeAlong(server, r, frames, subs)
    requires CursorsIssued(r, issued, subs) && forall f :: f in frames ==> SetsIssued(f, issued, subs)
    ensures SafeAlong(Stored(server, doc, cs, ts), r, frames, subs)
    decreases |frames|
  {
    PutKeepsSafe(server, r, issued, subs, doc, cs, ts);
    if frames != [] {
      DeliveredIssued(r, frames[0], issued, subs);
      PutKeepsSafeAlong(server, Handle(r, frames[0], Subscribed(subs)), frames[1..], issued, subs, doc, cs, ts);
    }
  }

  lemma SyncedIsSafe(server: Records, r: Replica, subs: seq<Text>)
    requires Synced(server, r, subs)
    ensures Safe(server, r, subs)
  {
    forall c, e | c in subs && Lists(server, c, e) ensures HasCopy(server, r, subs, e.id) {
      assert SyncedIn(server, r, subs, c);
    }
  }

  /** A put to collections nobody here subscribed to leaves the subscribed ones synced, and one whose
      broadcast is delivered does too, in whatever order the cursor comes. */
  lemma BroadcastDelivered(server: Records, r: Replica, r': Replica, doc: Doc, cs: seq<Text>, ts: int, subs: seq<Text>)
    requires Storable(server, doc, ts) && Synced(server, r, subs)
    requires r' == (if Watched(Record(ts, doc, cs), subs)
                    then Handle(r, DocFrame(doc, cs, Entry(ts, doc.id)), Subscribed(subs)) else r)
    ensures Synced(Stored(server, doc, cs, ts), r', subs)
  {
    var server' := Stored(server, doc, cs, ts);
    forall d, f | d in subs && Lists(server', d, f) ensures HasCopy(server', r', subs, f.id) {
      StoredLists(server, doc, cs, ts, d, f);
      if f.id == doc.id {
        assert Watched(Record(ts, doc, cs), subs);
      } else {
        assert SyncedIn(server, r, subs, d) && HasCopy(server, r, subs, f.id);
        StoredKeeps(server, r', subs, doc, cs, ts, f.id);
      }
    }
  }

  // ---------------------------------------------------------------- anything else on the server

  /** What is new or changed on the server is in no subscribed collection; documents may have left
      them, deleted or filed elsewhere. */
  ghost predicate NoneAdded(server: Records, server': Records, subs: seq<Text>) {
    && Keyed(server')
    && forall id :: id in server' && Watched(server'[id], subs) ==> id in server && server'[id] == server[id]
  }

  lemma NoneAddedLists(server: Records, server': Records, subs: seq<Text>, d: Text)
    requires NoneAdded(server, server', subs) && d in subs
    ensures forall e :: Lists(server', d, e) ==> Lists(server, d, e) && server'[e.id] == server[e.id]
  {
    forall e | Lists(server', d, e) ensures Lists(server, d, e) && server'[e.id] == server[e.id] {
      assert Watched(server'[e.id], subs);
    }
  }

  lemma NoneAddedOk(server: Records, server': Records, subs: seq<Text>)
    requires ServerOk(server, subs) && NoneAdded(server, server', subs)
    ensures ServerOk(server', subs)
  {
  }

  lemma DeleteAddsNone(server: Records, id: Text, subs: seq<Text>)
    requires Keyed(server)
    ensures NoneAdded(server, server - {id}, subs)
  {
  }

  /** Fewer documents on the server are missing from nobody. */
  lemma ElsewhereKeepsSafe(server: Records, server': Records, r: Replica, subs: seq<Text>)
    requires NoneAdded(server, server', subs) && Safe(server, r, subs)
    ensures Safe(server', r, subs)
  {
    forall d, e | d in subs && Lists(server', d, e) && Reached(r, d, e) ensures HasCopy(server', r, subs, e.id) {
      NoneAddedLists(server, server', subs, d);
      assert NothingLost(server, r, subs, d) && HasCopy(server, r, subs, e.id);
    }
  }

  lemma {:induction false} ElsewhereKeepsSafeAlong(server: Records, server': Records, r: Replica, frames: seq<Frame>,
        subs: seq<Text>)
    requires NoneAdded(server, server', subs) && SafeAlong(server, r, frames, subs)
    ensures SafeAlong(server', r, frames, subs)
    decreases |frames|
  {
    ElsewhereKeepsSafe(server, server', r, subs);
    if frames != [] {
      ElsewhereKeepsSafeAlong(server, server', Handle(r, frames[0], Subscribed(subs)), frames[1..], subs);
    }
  }

  lemma ElsewhereKeepsSynced(server: Records, server': Records, r: Replica, subs: seq<Text>)
    requires NoneAdded(server, server', subs) && Synced(server, r, subs)
    ensures Synced(server', r, subs)
  {
    forall d, e | d in subs && Lists(server', d, e) ensures HasCopy(server', r, subs, e.id) {
      NoneAddedLists(server, server', subs, d);
      assert SyncedIn(server, r, subs, d) && HasCopy(server, r, subs, e.id);
    }
  }

  // ---------------------------------------------------------------- frames without a document

  /** As a delete sends them: the client rejects them. */
  ghost predicate Silent(frames: seq<Frame>) {
    forall f :: f in frames ==> f.Data? && f.doc.None?
  }

  lemma {:induction false} SilentKeeps(server: Records, r: Replica, frames: seq<Frame>, subs: seq<Text>)
    requires Silent(frames)
    ensures HandleAll(r, frames, Subscribed(subs)) == r
    ensures Safe(server, r, subs) ==> SafeAlong(server, r, frames, subs)
    decreases |frames|
  {
    if frames != [] {
      assert frames[0] in frames;
      SilentKeeps(server, r, frames[1..], subs);
    }
  }
}
