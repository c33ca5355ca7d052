/** The sync protocol: what a client can rely on about its replica, step by step. */
module SyncSafety {
  import opened Texts
  import opened Cursor
  import opened Documents
  import opened StoreModel
  import opened ApStoreModel
  import opened StoreLaws
  import opened Frames
  import opened ResumeModel
  import opened Replicas

  /** A document filed in a collection this client subscribes to. */
  ghost predicate Watched(r: Record, subs: seq<Text>) {
    exists c :: c in r.collections && c in subs
  }

  ghost predicate Keyed(server: Records) {
    forall id :: id in server ==> id != [] && server[id].doc.id == id
  }

  /** Each document in a subscribed collection has a timestamp its cursor can hold. Nothing is asked
      of the other documents. */
  ghost predicate ServerOk(server: Records, subs: seq<Text>) {
    && Keyed(server)
    && (forall id :: id in server && Watched(server[id], subs) ==> Encodable(server[id].ts))
  }

  /** The document is in more than one subscribed collection. */
  ghost predicate Several(server: Records, subs: seq<Text>, id: Text) {
    && id in server
    && exists c, d :: c != d && c in subs && d in subs && c in server[id].collections && d in server[id].collections
  }

  function Subscribed(subs: seq<Text>): set<Text> {
    set c | c in subs
  }

  /** The client's saved cursor for `c` is at or past the entry. */
  ghost predicate Reached(r: Replica, c: Text, e: Entry) {
    Encodable(e.ts) && c in r.cursors && !Less(r.cursors[c], CursorOf(e))
  }

  ghost predicate SameFiling(cs: seq<Text>, ds: seq<Text>, subs: seq<Text>) {
    forall c :: c in subs ==> (c in cs <==> c in ds)
  }

  /** The client has the server's document, filed as there unless that is in several subscribed
      collections. */
  ghost predicate HasCopy(server: Records, r: Replica, subs: seq<Text>, id: Text) {
    && id in server && id in r.docs && r.docs[id].doc == server[id].doc
    && (!Several(server, subs, id) ==> SameFiling(r.docs[id].collections, server[id].collections, subs))
  }

  /** Nothing the cursor claims to have seen is missing. */
  ghost predicate NothingLost(server: Records, r: Replica, subs: seq<Text>, c: Text) {
    forall e :: Lists(server, c, e) && Reached(r, c, e) ==> HasCopy(server, r, subs, e.id)
  }

  ghost predicate Safe(server: Records, r: Replica, subs: seq<Text>) {
    forall c :: c in subs ==> NothingLost(server, r, subs, c)
  }

  ghost predicate SyncedIn(server: Records, r: Replica, subs: seq<Text>, c: Text) {
    forall e :: Lists(server, c, e) ==> HasCopy(server, r, subs, e.id)
  }

  ghost predicate Synced(server: Records, r: Replica, subs: seq<Text>) {
    forall c :: c in subs ==> SyncedIn(server, r, subs, c)
  }

  /** Safe now, and after each of the frames still to be delivered. */
  ghost predicate SafeAlong(server: Records, r: Replica, frames: seq<Frame>, subs: seq<Text>)
    decreases |frames|
  {
    && Safe(server, r, subs)
    && (frames != [] ==> SafeAlong(server, Handle(r, frames[0], Subscribed(subs)), frames[1..], subs))
  }

  lemma {:induction false} SafeAlongConcat(server: Records, r: Replica, xs: seq<Frame>, ys: seq<Frame>, subs: seq<Text>)
    requires SafeAlong(server, r, xs, subs)
    requires SafeAlong(server, HandleAll(r, xs, Subscribed(subs)), ys, subs)
    ensures SafeAlong(server, r, xs + ys, subs)
    decreases |xs|
  {
    if xs == [] {
      assert xs + ys == ys;
    } else {
      assert (xs + ys)[1..] == xs[1..] + ys;
      SafeAlongConcat(server, Handle(r, xs[0], Subscribed(subs)), xs[1..], ys, subs);
    }
  }

  lemma {:induction false} SafeAtEnd(server: Records, r: Replica, frames: seq<Frame>, subs: seq<Text>)
    requires SafeAlong(server, r, frames, subs)
    ensures Safe(server, HandleAll(r, frames, Subscribed(subs)), subs)
    decreases |frames|
  {
    if frames != [] {
      SafeAtEnd(server, Handle(r, frames[0], Subscribed(subs)), frames[1..], subs);
    }
  }

  // ---------------------------------------------------------------- one entry delivered

  /** A document under the cursor of its entry, as a put is broadcast. */
  function DocFrame(doc: Doc, cs: seq<Text>, e: Entry): Frame
    requires Encodable(e.ts)
  {
    Data(doc.id, Some(doc), cs, Some(CursorOf(e)))
  }

  /** As a replay sends it: tagged with the one collection replayed. */
  function EntryFrame(doc: Doc, c: Text, e: Entry): Frame
    requires Encodable(e.ts)
  {
    DocFrame(doc, [c], e)
  }

  lemma HandleEntry(r: Replica, doc: Doc, c: Text, e: Entry, subs: seq<Text>)
    requires Encodable(e.ts) && doc.id != [] && c in subs
    ensures Handle(r, EntryFrame(doc, c, e), Subscribed(subs))
         == Replica(r.docs[doc.id := Copy(doc, [c])], r.cursors[c := CursorOf(e)])
  {
    assert MarkAll(r.cursors, [c][..0], Subscribed(subs), CursorOf(e)) == r.cursors;
  }

  ghost predicate OthersKept(server: Records, r: Replica, r': Replica, subs: seq<Text>, c: Text) {
    forall d :: d != c && SyncedIn(server, r, subs, d) ==> SyncedIn(server, r', subs, d)
  }

  /** Delivering an entry whose predecessors are all present moves the cursor safely onto it. */
  lemma DeliverEntry(server: Records, r: Replica, c: Text, e: Entry, subs: seq<Text>)
    requires ServerOk(server, subs) && Safe(server, r, subs) && c in subs && Lists(server, c, e)
    requires forall f :: Lists(server, c, f) && Before(f, e) ==> HasCopy(server, r, subs, f.id)
    ensures var r' := Handle(r, EntryFrame(server[e.id].doc, c, e), Subscribed(subs));
            && Safe(server, r', subs)
            && HasCopy(server, r', subs, e.id)
            && (forall id :: HasCopy(server, r, subs, id) ==> HasCopy(server, r', subs, id))
            && OthersKept(server, r, r', subs, c)
            && r'.cursors == r.cursors[c := CursorOf(e)]
  {
    var doc := server[e.id].doc;
    var r' := Handle(r, EntryFrame(doc, c, e), Subscribed(subs));
    HandleEntry(r, doc, c, e, subs);
    assert HasCopy(server, r', subs, e.id);
    assert forall id :: HasCopy(server, r, subs, id) ==> HasCopy(server, r', subs, id);
    forall d, f | d in subs && Lists(server, d, f) && Reached(r', d, f)
      ensures HasCopy(server, r', subs, f.id)
    {
      if d == c {
        CursorOrder(e, f);
        BeforeTotal(e, f);
      } else {
        assert NothingLost(server, r, subs, d) && Reached(r, d, f);
      }
    }
  }

  lemma BeforeTotal(e: Entry, f: Entry)
    ensures Before(e, f) || e == f || Before(f, e)
  {
    LessTotal(e.id, f.id);
  }

  // ---------------------------------------------------------------- a replay drained

  ghost function CursorIn(r: Replica, c: Text): Option<Text> {
    if c in r.cursors then Some(r.cursors[c]) else None
  }

  /** The replica has the first `k` entries of the listing. */
  ghost predicate HasPrefix(server: Records, r: Replica, subs: seq<Text>, c: Text, k: nat)
    requires k <= |Listing(server, c)|
  {
    forall i :: 0 <= i < k ==> HasCopy(server, r, subs, Listing(server, c)[i].id)
  }

  lemma PrefixCovers(server: Records, r: Replica, subs: seq<Text>, c: Text, k: nat, f: Entry)
    requires k <= |Listing(server, c)| && HasPrefix(server, r, subs, c, k) && Lists(server, c, f)
    requires k == |Listing(server, c)| || Before(f, Listing(server, c)[k])
    ensures HasCopy(server, r, subs, f.id)
  {
    var all := Listing(server, c);
    var i :| 0 <= i < |all| && all[i] == f;
    if k < |all| {
      BeforeAsymmetric(f, all[k]);
    }
  }

  ghost predicate AllHeld(server: Records, es: seq<Entry>) {
    forall i :: 0 <= i < |es| ==> es[i].id in server && Encodable(es[i].ts)
  }

  /** The frames a replay sends for these entries. */
  ghost function EntryFrames(server: Records, c: Text, es: seq<Entry>): (frames: seq<Frame>)
    requires AllHeld(server, es)
    ensures |frames| == |es|
    ensures forall i :: 0 <= i < |es| ==> frames[i] == EntryFrame(server[es[i].id].doc, c, es[i])
  {
    ReplayFrames(c, Children(server, es))
  }

  lemma EntryFramesStep(server: Records, c: Text, es: seq<Entry>)
    requires AllHeld(server, es) && es != []
    ensures EntryFrames(server, c, es) == [EntryFrame(server[es[0].id].doc, c, es[0])] + EntryFrames(server, c, es[1..])
  {
    assert forall i :: 0 < i < |es| ==> es[i] == es[1..][i - 1];
  }

  lemma TailStep(server: Records, c: Text, k: nat, frames: seq<Frame>)
    requires k < |Listing(server, c)| && frames == TailFrames(server, c, k)
    ensures var e := Listing(server, c)[k];
            Lists(server, c, e) && frames == [EntryFrame(server[e.id].doc, c, e)] + TailFrames(server, c, k + 1)
  {
    var all := Listing(server, c);
    assert all[k] in all;
    assert all[k..][1..] == all[k + 1..];
    assert forall i :: 0 <= i < |all| ==> all[i] in all;
    EntryFramesStep(server, c, all[k..]);
  }

  /** Delivering these frames is safe throughout, leaves the collection synced, the other
      collections as they were, and the cursor, if it moves, at `last`. */
  ghost predicate Drains(server: Records, r: Replica, frames: seq<Frame>, c: Text, subs: seq<Text>, last: Text) {
    var r' := HandleAll(r, frames, Subscribed(subs));
    && SafeAlong(server, r, frames, subs)
    && SyncedIn(server, r', subs, c) && OthersKept(server, r, r', subs, c)
    && r'.cursors == if frames == [] then r.cursors else r.cursors[c := last]
  }

  /** The cursor of the last member of a collection. */
  ghost function LastCursor(es: seq<Entry>): Text
    requires AllEncodable(es)
  {
    if es == [] then [] else CursorOf(es[|es| - 1])
  }

  lemma OneFrameMore(server: Records, r: Replica, f: Frame, rest: seq<Frame>, subs: seq<Text>)
    requires Safe(server, r, subs) && SafeAlong(server, Handle(r, f, Subscribed(subs)), rest, subs)
    ensures SafeAlong(server, r, [f] + rest, subs)
    ensures HandleAll(r, [f] + rest, Subscribed(subs))
         == HandleAll(Handle(r, f, Subscribed(subs)), rest, Subscribed(subs))
  {
    assert ([f] + rest)[1..] == rest;
  }

  lemma DrainStep(server: Records, r: Replica, f: Frame, rest: seq<Frame>, c: Text, subs: seq<Text>,
        cursor: Text, last: Text)
    requires Safe(server, r, subs)
    requires var r1 := Handle(r, f, Subscribed(subs));
             && Drains(server, r1, rest, c, subs, last) && OthersKept(server, r, r1, subs, c)
             && r1.cursors == r.cursors[c := cursor]
    requires rest == [] ==> cursor == last
    ensures Drains(server, r, [f] + rest, c, subs, last)
  {
    OneFrameMore(server, r, f, rest, subs);
  }

  /** Replaying the tail of a listing onto a replica that has all before it. */
  lemma {:induction false} DrainTail(server: Records, r: Replica, c: Text, k: nat, subs: seq<Text>)
    requires ServerOk(server, subs) && Safe(server, r, subs) && c in subs
    requires k <= |Listing(server, c)| && HasPrefix(server, r, subs, c, k)
    ensures Drains(server, r, TailFrames(server, c, k), c, subs, LastCursor(Listing(server, c)))
    decreases |Listing(server, c)| - k
  {
    var all, frames := Listing(server, c), TailFrames(server, c, k);
    forall f | Lists(server, c, f) && (k == |all| || Before(f, all[k]))
      ensures HasCopy(server, r, subs, f.id)
    {
      PrefixCovers(server, r, subs, c, k, f);
    }
    if k < |all| {
      TailStep(server, c, k, frames);
      DeliverEntry(server, r, c, all[k], subs);
      var r1 := Handle(r, frames[0], Subscribed(subs));
      PrefixGrows(server, r, r1, subs, c, k);
      DrainTail(server, r1, c, k + 1, subs);
      DrainStep(server, r, frames[0], TailFrames(server, c, k + 1), c, subs, CursorOf(all[k]), LastCursor(all));
    }
  }

  lemma PrefixGrows(server: Records, r: Replica, r1: Replica, subs: seq<Text>, c: Text, k: nat)
    requires k < |Listing(server, c)| && HasPrefix(server, r, subs, c, k)
    requires HasCopy(server, r1, subs, Listing(server, c)[k].id)
    requires forall id :: HasCopy(server, r, subs, id) ==> HasCopy(server, r1, subs, id)
    ensures HasPrefix(server, r1, subs, c, k + 1)
  {
  }

  ghost function TailFrames(server: Records, c: Text, k: nat): (frames: seq<Frame>)
    requires k <= |Listing(server, c)|
    ensures |frames| == |Listing(server, c)| - k
  {
    var all := Listing(server, c);
    assert forall i :: 0 <= i < |all| ==> all[i] in all;
    EntryFrames(server, c, all[k..])
  }

  /** What a resume from the client's own cursor sends is a tail of the listing, and the client has
      all that comes before it. */
  lemma SinceIsTail(server: Records, r: Replica, subs: seq<Text>, c: Text) returns (k: nat)
    requires NothingLost(server, r, subs, c)
    ensures k <= |Listing(server, c)| && HasPrefix(server, r, subs, c, k)
    ensures ReplayFrames(c, Since(server, c, CursorIn(r, c), None)) == TailFrames(server, c, k)
    ensures |Since(server, c, CursorIn(r, c), None)| == |Listing(server, c)| - k
  {
    var all := Listing(server, c);
    var later := After(all, CursorIn(r, c));
    AfterIsSuffix(all, CursorIn(r, c));
    k := |all| - |later|;
    forall i | 0 <= i < k
      ensures HasCopy(server, r, subs, all[i].id)
    {
      SkippedIsReached(server, r, subs, c, i);
    }
  }

  /** An entry the resume skips is one the cursor had passed. */
  lemma SkippedIsReached(server: Records, r: Replica, subs: seq<Text>, c: Text, i: nat)
    requires NothingLost(server, r, subs, c)
    requires i < |Listing(server, c)| - |After(Listing(server, c), CursorIn(r, c))|
    ensures HasCopy(server, r, subs, Listing(server, c)[i].id)
  {
    var all := Listing(server, c);
    var later := After(all, CursorIn(r, c));
    assert Lists(server, c, all[i]);
    AfterIsSuffix(all, CursorIn(r, c));
    AfterElements(all, CursorIn(r, c), all[i]);
    NotBehind(all, i, |all| - |later|);
  }

  lemma NotBehind(all: seq<Entry>, i: nat, k: nat)
    requires InOrder(all) && i < k <= |all|
    ensures all[i] !in all[k..]
  {
    forall j | k <= j < |all| ensures all[j] != all[i] {
      BeforeAsymmetric(all[i], all[j]);
    }
  }
}
