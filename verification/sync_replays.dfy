/** What a replay contains, and what receiving it makes of any replica, whatever the server holds. */
module SyncReplays {
  import opened Texts
  import opened Cursor
  import opened Documents
  import opened StoreModel
  import opened ApStoreModel
  import opened Frames
  import opened ResumeModel
  import opened Replicas
  import opened SyncSafety

  // ---------------------------------------------------------------- the cursors frames leave

  /** The cursor a frame sets for a subscribed collection. */
  function SetBy(f: Frame, c: Text): Option<Text> {
    match f
    case Data(_, Some(doc), cs, cursor) => if doc.id != [] && Usable(cursor) && c in cs then cursor else None
    case Resumed(cursors) => if c in cursors && Usable(cursors[c]) then cursors[c] else None
    case _ => None
  }

  function LastSet(frames: seq<Frame>, c: Text): Option<Text>
    decreases |frames|
  {
    if frames == [] then None
    else
      var later := LastSet(frames[1..], c);
      if later.Some? then later else SetBy(frames[0], c)
  }

  lemma {:induction false} MarkAllAt(cursors: map<Text, Text>, cs: seq<Text>, subscribed: set<Text>,
        cursor: Text, c: Text)
    ensures var marked := MarkAll(cursors, cs, subscribed, cursor);
            if c in cs && c in subscribed then c in marked && marked[c] == cursor
            else (c in marked <==> c in cursors) && (c in cursors ==> marked[c] == cursors[c])
  {
    if cs != [] {
      var n := |cs| - 1;
      assert cs == cs[..n] + [cs[n]];
      MarkAllAt(cursors, cs[..n], subscribed, cursor, c);
    }
  }

  /** What a frame does to a replica, collection by collection: a data frame with a document files it as tagged
      and, if its cursor is there and not empty, moves the cursors of the tagged collections that are subscribed;
      a closing frame sets the cursors that it has and that are not empty; any other frame does nothing. */
  lemma HandleMeaning(r: Replica, f: Frame, subscribed: set<Text>, c: Text)
    ensures var r' := Handle(r, f, subscribed);
            match f
            case Data(_, Some(doc), cs, cursor) =>
              if doc.id == [] then r' == r
              else && r'.docs == r.docs[doc.id := Copy(doc, cs)]
                   && CursorIn(r', c) == if cursor.Some? && cursor.value != [] && c in cs && c in subscribed
                                         then cursor else CursorIn(r, c)
            case Resumed(cursors) =>
              && r'.docs == r.docs
              && CursorIn(r', c) == if c in cursors && cursors[c].Some? && cursors[c].value != []
                                    then cursors[c] else CursorIn(r, c)
            case _ => r' == r
  {
    if f.Data? && f.cursor.Some? {
      MarkAllAt(r.cursors, f.collections, subscribed, f.cursor.value, c);
    }
  }

  lemma HandleCursor(r: Replica, f: Frame, subs: seq<Text>, c: Text)
    requires c in subs
    ensures CursorIn(Handle(r, f, Subscribed(subs)), c) == if SetBy(f, c).Some? then SetBy(f, c) else CursorIn(r, c)
  {
    if f.Data? && Usable(f.cursor) {
      MarkAllAt(r.cursors, f.collections, Subscribed(subs), f.cursor.value, c);
    }
  }

  lemma {:induction false} HandleAllCursor(r: Replica, frames: seq<Frame>, subs: seq<Text>, c: Text)
    requires c in subs
    ensures CursorIn(HandleAll(r, frames, Subscribed(subs)), c)
         == if LastSet(frames, c).Some? then LastSet(frames, c) else CursorIn(r, c)
    decreases |frames|
  {
    if frames != [] {
      HandleCursor(r, frames[0], subs, c);
      HandleAllCursor(Handle(r, frames[0], Subscribed(subs)), frames[1..], subs, c);
    }
  }

  // ---------------------------------------------------------------- the documents frames leave

  function DocPatch(f: Frame): map<Text, Copy> {
    if f.Data? && f.doc.Some? && f.doc.value.id != []
    then map[f.doc.value.id := Copy(f.doc.value, f.collections)]
    else map[]
  }

  function DocPatches(frames: seq<Frame>): map<Text, Copy>
    decreases |frames|
  {
    if frames == [] then map[] else DocPatch(frames[0]) + DocPatches(frames[1..])
  }

  lemma {:induction false} DocsPatched(r: Replica, frames: seq<Frame>, subscribed: set<Text>)
    ensures HandleAll(r, frames, subscribed).docs == r.docs + DocPatches(frames)
    decreases |frames|
  {
    if frames != [] {
      DocsPatched(Handle(r, frames[0], subscribed), frames[1..], subscribed);
      HandlePatches(r, frames[0], subscribed);
      PatchTwice(r.docs, DocPatch(frames[0]), DocPatches(frames[1..]));
    }
  }

  lemma HandlePatches(r: Replica, f: Frame, subscribed: set<Text>)
    ensures Handle(r, f, subscribed).docs == r.docs + DocPatch(f)
  {
  }

  lemma PatchTwice(docs: map<Text, Copy>, p: map<Text, Copy>, q: map<Text, Copy>)
    ensures (docs + p) + q == docs + (p + q)
  {
  }

  /** Applying any frames twice, a whole replay for instance, leaves the same documents in the
      same collections as applying them once. */
  lemma ReplayIdempotent(r: Replica, frames: seq<Frame>, subscribed: set<Text>)
    ensures HandleAll(HandleAll(r, frames, subscribed), frames, subscribed).docs
         == HandleAll(r, frames, subscribed).docs
  {
    DocsPatched(r, frames, subscribed);
    DocsPatched(HandleAll(r, frames, subscribed), frames, subscribed);
  }

  ghost predicate Carries(f: Frame, id: Text) {
    f.Data? && f.doc.Some? && f.doc.value.id == id && id != []
  }

  lemma {:induction false} PatchesAt(frames: seq<Frame>, id: Text) returns (f: Frame)
    ensures id in DocPatches(frames) ==>
              f in frames && Carries(f, id) && DocPatches(frames)[id] == Copy(f.doc.value, f.collections)
    ensures forall g :: g in frames && Carries(g, id) ==> id in DocPatches(frames)
    decreases |frames|
  {
    f := Resumed(map[]);
    if frames != [] {
      assert frames == [frames[0]] + frames[1..];
      f := PatchesAt(frames[1..], id);
      if id !in DocPatches(frames[1..]) {
        f := frames[0];
      }
    }
  }

  // ---------------------------------------------------------------- the frames of a replay

  lemma {:induction false} FramesForElements(frames: seq<Frame>, c: Text, f: Frame)
    ensures f in FramesFor(frames, c) <==> f in frames && f.Data? && c in f.collections
  {
    if frames != [] {
      var n := |frames| - 1;
      assert frames == frames[..n] + [frames[n]];
      FramesForElements(frames[..n], c, f);
    }
  }

  lemma LaterHeld(server: Records, d: Text, since: Option<Text>)
    ensures AllHeld(server, After(Listing(server, d), since))
    ensures forall e :: e in After(Listing(server, d), since) ==> Lists(server, d, e)
  {
    var later := After(Listing(server, d), since);
    forall e | e in later ensures Lists(server, d, e) {
      AfterElements(Listing(server, d), since, e);
    }
    assert forall i :: 0 <= i < |later| ==> later[i] in later;
  }

  /** A replay, one collection at a time. */
  lemma ReplayIn(server: Records, subs: seq<Text>, since: Cursors, d: Text)
    requires NoDuplicates(subs) && d in subs
    ensures var (frames, cursors) := Replay(server, subs, since);
            var later := After(Listing(server, d), SinceOf(since, d));
            && AllHeld(server, later) && FramesFor(frames, d) == EntryFrames(server, d, later)
            && d in cursors
            && cursors[d] == if later == [] then SinceOf(since, d) else Some(CursorOf(later[|later| - 1]))
  {
    LaterHeld(server, d, SinceOf(since, d));
    ReplayIsExact(server, subs, since, d);
    SinceLast(server, d, SinceOf(since, d));
  }

  /** The cursor a replay closes with is that of a listed entry, or the one it was asked from. */
  lemma ClosingCursor(server: Records, subs: seq<Text>, since: Cursors, d: Text) returns (e: Entry)
    requires NoDuplicates(subs) && d in subs
    ensures var cursors := Replay(server, subs, since).1;
            && d in cursors
            && (cursors[d] == SinceOf(since, d) || (Lists(server, d, e) && cursors[d] == Some(CursorOf(e))))
  {
    var later := After(Listing(server, d), SinceOf(since, d));
    ReplayIsExact(server, subs, since, d);
    SinceLast(server, d, SinceOf(since, d));
    e := if later == [] then Entry(0, []) else later[|later| - 1];
    AfterElements(Listing(server, d), SinceOf(since, d), e);
  }

  /** The frame is the replay of the entry `e` of collection `d`. */
  ghost predicate Replays(server: Records, subs: seq<Text>, since: Cursors, f: Frame, d: Text, e: Entry) {
    && d in subs && Lists(server, d, e) && e in After(Listing(server, d), SinceOf(since, d))
    && f == EntryFrame(server[e.id].doc, d, e)
  }

  /** The data frames of a replay are those of the entries behind the given cursors, and only those. */
  lemma ReplayFrameOf(server: Records, subs: seq<Text>, since: Cursors, f: Frame) returns (d: Text, e: Entry)
    requires NoDuplicates(subs) && f in Replay(server, subs, since).0
    ensures Replays(server, subs, since, f, d, e)
  {
    var frames := Replay(server, subs, since).0;
    ReplayTagged(server, subs, since);
    d := f.collections[0];
    FramesForElements(frames, d, f);
    NotSubscribed(server, subs, since, d);
    ReplayIn(server, subs, since, d);
    LaterHeld(server, d, SinceOf(since, d));
    var later := After(Listing(server, d), SinceOf(since, d));
    var i :| 0 <= i < |later| && EntryFrames(server, d, later)[i] == f;
    e := later[i];
  }

  lemma NotSubscribed(server: Records, subs: seq<Text>, since: Cursors, d: Text)
    requires NoDuplicates(subs)
    ensures d !in subs ==> FramesFor(Replay(server, subs, since).0, d) == []
  {
    ReplayIsExact(server, subs, since, d);
  }

  lemma ReplayFrameFor(server: Records, subs: seq<Text>, since: Cursors, d: Text, e: Entry)
    requires NoDuplicates(subs) && d in subs && e in After(Listing(server, d), SinceOf(since, d))
    ensures Lists(server, d, e) && EntryFrame(server[e.id].doc, d, e) in FramesFor(Replay(server, subs, since).0, d)
    ensures EntryFrame(server[e.id].doc, d, e) in Replay(server, subs, since).0
  {
    var later := After(Listing(server, d), SinceOf(since, d));
    LaterHeld(server, d, SinceOf(since, d));
    ReplayIn(server, subs, since, d);
    var i :| 0 <= i < |later| && later[i] == e;
    assert EntryFrames(server, d, later)[i] == EntryFrame(server[e.id].doc, d, e);
    FramesForElements(Replay(server, subs, since).0, d, EntryFrame(server[e.id].doc, d, e));
  }

  /** Frames of this replay or its closing frame. */
  ghost predicate FromReplay(server: Records, subs: seq<Text>, since: Cursors, fs: seq<Frame>) {
    forall f :: f in fs ==> f in Replay(server, subs, since).0 || f == Resumed(Replay(server, subs, since).1)
  }

  // ---------------------------------------------------------------- agreement on a document

  /** The server lists the document in the collection. */
  ghost predicate Listed(server: Records, c: Text, id: Text) {
    id in server && InCollection(server[id], c)
  }

  /** The client has a document of this id in the collection. */
  ghost predicate Filed(r: Replica, c: Text, id: Text) {
    id in r.docs && c in r.docs[id].collections
  }

  /** The client has the server's document, in the collection. */
  ghost predicate Held(server: Records, r: Replica, c: Text, id: Text) {
    id in server && Filed(r, c, id) && r.docs[id].doc == server[id].doc
  }

  ghost predicate AgreeOn(server: Records, r: Replica, c: Text, id: Text) {
    if Listed(server, c, id) then Held(server, r, c, id) else !Filed(r, c, id)
  }

  /** The client has the server's document, in the collection unless that is one of several. */
  ghost predicate Has(server: Records, r: Replica, subs: seq<Text>, c: Text, id: Text) {
    && id in server && id in r.docs && r.docs[id].doc == server[id].doc
    && (Several(server, subs, id) || c in r.docs[id].collections)
  }

  /** The client has every document the server lists in the collection and files nothing else there, but
      for documents in `gone`. Where it files documents of several subscribed collections is left open. */
  ghost predicate AgreeBut(server: Records, r: Replica, subs: seq<Text>, c: Text, gone: set<Text>) {
    forall id :: if Listed(server, c, id) then Has(server, r, subs, c, id)
                 else Filed(r, c, id) ==> id in gone || Several(server, subs, id)
  }

  ghost predicate Agree(server: Records, r: Replica, subs: seq<Text>, c: Text) {
    AgreeBut(server, r, subs, c, {})
  }

  /** For documents in one subscribed collection each, nothing is left open. */
  lemma AgreeIsExact(server: Records, r: Replica, subs: seq<Text>, c: Text)
    requires forall id :: !Several(server, subs, id)
    ensures Agree(server, r, subs, c) <==> forall id :: AgreeOn(server, r, c, id)
  {
    if Agree(server, r, subs, c) {
      forall id ensures AgreeOn(server, r, c, id) {
        assert Listed(server, c, id) ==> Has(server, r, subs, c, id);
      }
    }
    if forall id :: AgreeOn(server, r, c, id) {
      forall id
        ensures if Listed(server, c, id) then Has(server, r, subs, c, id) else !Filed(r, c, id)
      {
        assert AgreeOn(server, r, c, id);
      }
    }
  }

  // ---------------------------------------------------------------- a whole reconnect

  /** The cursors the client resumes from. */
  function AskFor(r: Replica, subs: seq<Text>): Cursors {
    map c | c in subs :: if c in r.cursors then Some(r.cursors[c]) else None
  }

  /** The replica after connecting again and receiving the whole replay. */
  ghost function Reconnected(server: Records, r: Replica, subs: seq<Text>): Replica {
    var (frames, cursors) := Replay(server, subs, AskFor(r, subs));
    HandleAll(r, frames + [Resumed(cursors)], Subscribed(subs))
  }

  function EntryIn(server: Records, id: Text): Entry
    requires id in server
  {
    Entry(server[id].ts, id)
  }

  /** A replay from these cursors sends the document for the collection. */
  ghost predicate Brings(server: Records, since: Cursors, d: Text, id: Text) {
    Listed(server, d, id) && IsAfter(EntryIn(server, id), SinceOf(since, d))
  }

  /** The last of the subscriptions whose replay sends the document. */
  ghost function LastBringer(server: Records, subs: seq<Text>, since: Cursors, id: Text): Option<Text> {
    if subs == [] then None
    else if Brings(server, since, subs[|subs| - 1], id) then Some(subs[|subs| - 1])
    else LastBringer(server, subs[..|subs| - 1], since, id)
  }

  lemma {:induction false} LastBringerIs(server: Records, subs: seq<Text>, since: Cursors, id: Text)
    ensures match LastBringer(server, subs, since, id)
            case Some(d) => d in subs && Brings(server, since, d, id)
            case None => forall d :: d in subs ==> !Brings(server, since, d, id)
  {
    if subs != [] {
      var n := |subs| - 1;
      assert subs == subs[..n] + [subs[n]];
      LastBringerIs(server, subs[..n], since, id);
    }
  }

  lemma {:induction false} PatchesConcat(xs: seq<Frame>, ys: seq<Frame>)
    ensures DocPatches(xs + ys) == DocPatches(xs) + DocPatches(ys)
    decreases |xs|
  {
    if xs == [] {
      assert xs + ys == ys;
    } else {
      assert (xs + ys)[1..] == xs[1..] + ys;
      PatchesConcat(xs[1..], ys);
      PatchTwice(DocPatch(xs[0]), DocPatches(xs[1..]), DocPatches(ys));
    }
  }

  /** The replay of one collection files each document it sends in that collection alone. */
  lemma CollectionPatches(server: Records, since: Cursors, c: Text, id: Text)
    requires Keyed(server)
    ensures var patches := DocPatches(ReplayFrames(c, Since(server, c, SinceOf(since, c), None)));
            if Brings(server, since, c, id) then id in patches && patches[id] == Copy(server[id].doc, [c])
            else id !in patches
  {
    var later := After(Listing(server, c), SinceOf(since, c));
    LaterHeld(server, c, SinceOf(since, c));
    assert ReplayFrames(c, Since(server, c, SinceOf(since, c), None)) == EntryFrames(server, c, later);
    EntryPatches(server, c, later, id);
    if id in server {
      AfterElements(Listing(server, c), SinceOf(since, c), EntryIn(server, id));
    }
  }

  lemma EntryPatches(server: Records, c: Text, es: seq<Entry>, id: Text)
    requires Keyed(server) && AllHeld(server, es) && forall e :: e in es ==> Lists(server, c, e)
    ensures var patches := DocPatches(EntryFrames(server, c, es));
            if id in server && EntryIn(server, id) in es
            then id in patches && patches[id] == Copy(server[id].doc, [c])
            else id !in patches
  {
    var frames := EntryFrames(server, c, es);
    var f := PatchesAt(frames, id);
    if id in DocPatches(frames) {
      var i :| 0 <= i < |frames| && frames[i] == f;
      assert es[i] in es && es[i] == EntryIn(server, id);
    }
    if id in server && EntryIn(server, id) in es {
      var i :| 0 <= i < |es| && es[i] == EntryIn(server, id);
      assert Carries(frames[i], id);
    }
  }

  /** A whole replay leaves a document filed under the last subscription that sends it. */
  lemma {:induction false} ReplayPatches(server: Records, subs: seq<Text>, since: Cursors, id: Text)
    requires Keyed(server)
    ensures var (patches, d) := (DocPatches(Replay(server, subs, since).0), LastBringer(server, subs, since, id));
            if d.Some? then id in server && id in patches && patches[id] == Copy(server[id].doc, [d.value])
            else id !in patches
  {
    if subs != [] {
      var n := |subs| - 1;
      var added := ReplayFrames(subs[n], Since(server, subs[n], SinceOf(since, subs[n]), None));
      ReplayPatches(server, subs[..n], since, id);
      CollectionPatches(server, since, subs[n], id);
      PatchesConcat(Replay(server, subs[..n], since).0, added);
    }
  }

  lemma ReconnectedCopy(server: Records, r: Replica, subs: seq<Text>, id: Text)
    requires Keyed(server)
    ensures var (docs, d) := (Reconnected(server, r, subs).docs, LastBringer(server, subs, AskFor(r, subs), id));
            if d.Some? then id in server && id in docs && docs[id] == Copy(server[id].doc, [d.value])
            else (id in docs <==> id in r.docs) && (id in docs ==> docs[id] == r.docs[id])
  {
    var (frames, cursors) := Replay(server, subs, AskFor(r, subs));
    ReplayPatches(server, subs, AskFor(r, subs), id);
    PatchesConcat(frames, [Resumed(cursors)]);
    DocsPatched(r, frames + [Resumed(cursors)], Subscribed(subs));
  }

  /** Where a document is filed after a reconnect, and when both sides then agree on it, for documents
      in any number of collections: under the last subscription whose replay sends it, or, when none
      does, where it was. */
  lemma ReconnectOutcome(server: Records, r: Replica, subs: seq<Text>, c: Text, id: Text)
    requires Keyed(server)
    ensures var u, d := Reconnected(server, r, subs), LastBringer(server, subs, AskFor(r, subs), id);
            && (Filed(u, c, id) <==> if d.Some? then d.value == c else Filed(r, c, id))
            && (AgreeOn(server, u, c, id) <==>
                  if d.Some? then Listed(server, c, id) ==> d.value == c else AgreeOn(server, r, c, id))
  {
    ReconnectedCopy(server, r, subs, id);
    LastBringerIs(server, subs, AskFor(r, subs), id);
  }

  lemma BringsUnreached(server: Records, r: Replica, subs: seq<Text>, d: Text, id: Text)
    requires d in subs
    ensures Brings(server, AskFor(r, subs), d, id)
       <==> Listed(server, d, id) && !Reached(r, d, EntryIn(server, id))
  {
    if Listed(server, d, id) {
      assert CursorOf(EntryIn(server, id)) != [];
    }
  }

  /** No reconnect repairs a document that is in two subscribed collections: afterwards both sides
      agree on it in all of them exactly when they did before and nothing of it was sent. */
  lemma OverlapOutcome(server: Records, r: Replica, subs: seq<Text>, a: Text, b: Text, id: Text)
    requires Keyed(server) && a in subs && b in subs && a != b
    requires Listed(server, a, id) && Listed(server, b, id)
    ensures (forall c :: c in subs ==> AgreeOn(server, Reconnected(server, r, subs), c, id))
       <==> (forall c :: c in subs ==> AgreeOn(server, r, c, id)
                                       && (Listed(server, c, id) ==> Reached(r, c, EntryIn(server, id))))
  {
    var u := Reconnected(server, r, subs);
    forall c | c in subs
      ensures AgreeOn(server, u, c, id) <==>
                var d := LastBringer(server, subs, AskFor(r, subs), id);
                if d.Some? then Listed(server, c, id) ==> d.value == c else AgreeOn(server, r, c, id)
      ensures Brings(server, AskFor(r, subs), c, id) <==> Listed(server, c, id) && !Reached(r, c, EntryIn(server, id))
    {
      ReconnectOutcome(server, r, subs, c, id);
      BringsUnreached(server, r, subs, c, id);
    }
    LastBringerIs(server, subs, AskFor(r, subs), id);
  }

  // ---------------------------------------------------------------- a whole collection after a reconnect

  /** The replay sends the document for a subscribed collection. */
  ghost predicate Sent(server: Records, r: Replica, subs: seq<Text>, id: Text) {
    exists d :: d in subs && Listed(server, d, id) && !Reached(r, d, EntryIn(server, id))
  }

  lemma SentIsBrought(server: Records, r: Replica, subs: seq<Text>, id: Text)
    ensures Sent(server, r, subs, id) <==> LastBringer(server, subs, AskFor(r, subs), id).Some?
  {
    LastBringerIs(server, subs, AskFor(r, subs), id);
    forall d | d in subs
      ensures Brings(server, AskFor(r, subs), d, id) <==> Listed(server, d, id) && !Reached(r, d, EntryIn(server, id))
    {
      BringsUnreached(server, r, subs, d, id);
    }
  }

  lemma ReconnectedHas(server: Records, r: Replica, subs: seq<Text>, c: Text, id: Text)
    requires Keyed(server) && c in subs
    ensures var u := Reconnected(server, r, subs);
            if Listed(server, c, id)
            then Has(server, u, subs, c, id) <==> Sent(server, r, subs, id) || Has(server, r, subs, c, id)
            else Filed(u, c, id) <==> Filed(r, c, id) && !Sent(server, r, subs, id)
  {
    ReconnectedCopy(server, r, subs, id);
    SentIsBrought(server, r, subs, id);
    LastBringerIs(server, subs, AskFor(r, subs), id);
  }

  /** A reconnect brings both sides to agreement exactly when every listed document is sent or was there,
      and every other document the client files in the collection is sent for another one; `gone`
      excuses documents it may keep. */
  lemma ReconnectAgrees(server: Records, r: Replica, subs: seq<Text>, c: Text, gone: set<Text>)
    requires Keyed(server) && c in subs
    ensures AgreeBut(server, Reconnected(server, r, subs), subs, c, gone)
       <==> && (forall id :: Listed(server, c, id) ==> Sent(server, r, subs, id) || Has(server, r, subs, c, id))
            && (forall id :: Filed(r, c, id) && !Listed(server, c, id) ==>
                  Sent(server, r, subs, id) || id in gone || Several(server, subs, id))
  {
    forall id
      ensures var u := Reconnected(server, r, subs);
              if Listed(server, c, id)
              then Has(server, u, subs, c, id) <==> Sent(server, r, subs, id) || Has(server, r, subs, c, id)
              else Filed(u, c, id) <==> Filed(r, c, id) && !Sent(server, r, subs, id)
    {
      ReconnectedHas(server, r, subs, c, id);
    }
  }

  /** With each document in one subscribed collection: exactly when the client holds every entry its saved
      cursor has passed, and all else that it files in the collection is sent for another one. */
  lemma SingleReconnect(server: Records, r: Replica, subs: seq<Text>, c: Text)
    requires Keyed(server) && c in subs && forall id :: !Several(server, subs, id)
    ensures Agree(server, Reconnected(server, r, subs), subs, c)
       <==> && (forall e :: Lists(server, c, e) && Reached(r, c, e) ==> Held(server, r, c, e.id))
            && (forall id :: Filed(r, c, id) && !Listed(server, c, id) ==> Sent(server, r, subs, id))
  {
    ReconnectAgrees(server, r, subs, c, {});
    forall id | Listed(server, c, id)
      ensures Lists(server, c, EntryIn(server, id))
      ensures Sent(server, r, subs, id) <==> !Reached(r, c, EntryIn(server, id))
      ensures Has(server, r, subs, c, id) <==> Held(server, r, c, id)
    {
      OneCollection(server, r, subs, c, id);
    }
    forall e | Lists(server, c, e) ensures Listed(server, c, e.id) && e == EntryIn(server, e.id) {
    }
  }

  lemma OneCollection(server: Records, r: Replica, subs: seq<Text>, c: Text, id: Text)
    requires c in subs && Listed(server, c, id) && !Several(server, subs, id)
    ensures Sent(server, r, subs, id) <==> !Reached(r, c, EntryIn(server, id))
  {
    forall d | d in subs && Listed(server, d, id) ensures d == c {
    }
  }

  /** What a safe client still files in a collection the document has left is sent for the new one. */
  lemma ExtraIsSent(server: Records, r: Replica, subs: seq<Text>, c: Text, id: Text)
    requires ServerOk(server, subs) && Safe(server, r, subs) && c in subs && !Several(server, subs, id)
    requires Filed(r, c, id) && !Listed(server, c, id) && id in server && Watched(server[id], subs)
    ensures Sent(server, r, subs, id)
  {
    var d :| d in server[id].collections && d in subs;
    assert !SameFiling(r.docs[id].collections, server[id].collections, subs);
    assert NothingLost(server, r, subs, d) && Lists(server, d, EntryIn(server, id));
  }

  /** A listed document that a safe client has not got is sent. */
  lemma MissingIsSent(server: Records, r: Replica, subs: seq<Text>, c: Text, id: Text)
    requires NothingLost(server, r, subs, c) && c in subs && Listed(server, c, id)
    ensures Sent(server, r, subs, id) || Has(server, r, subs, c, id)
  {
    assert Lists(server, c, EntryIn(server, id));
    assert HasCopy(server, r, subs, id) ==> Has(server, r, subs, c, id);
  }
}
